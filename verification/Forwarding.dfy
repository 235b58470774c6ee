/** Where the packets of a flow end up once every NAT rule of the session is installed. */
module Forwarding {
  import opened Wrappers
  import opened NatTable
  import opened Flows
  import opened Arithmetic
  import Text
  import Seqs

  /** Distinct sources and destinations, and no address that is both. Hops may repeat: the
      probing loop can leave the same one twice. */
  ghost predicate ProperPlan(plan: Plan) {
    && plan.hops != []
    && Seqs.Distinct(plan.srcs) && Seqs.Distinct(plan.dsts)
    && (forall i, j :: 0 <= i < |plan.srcs| && 0 <= j < |plan.dsts| ==> plan.srcs[i] != plan.dsts[j])
  }

  /** The sender's own table and the table of one overlay node before the session. */
  datatype Before = Before(sender: Table, nodes: map<Ip, Table>)

  /** No rule that was there before the session matches one of its packets. */
  ghost predicate Unclaimed(before: Before, plan: Plan, port: nat) {
    && (forall a :: a in plan.hops ==> a in before.nodes)
    && (forall s, d :: s in plan.srcs && d in plan.dsts ==> NoMatch(before.sender.output, Packet(s, d, port)))
    && (forall s, a :: s in plan.srcs && a in plan.hops ==> NoMatch(before.nodes[a].prerouting, Packet(s, a, port)))
    && (forall s, d, a :: s in plan.srcs && d in plan.dsts && a in plan.hops ==>
         NoMatch(before.nodes[a].postrouting, Packet(s, d, port)))
  }

  function SenderAfter(before: Before, plan: Plan): Table
    requires plan.hops != []
  {
    ExecAll(before.sender, SenderSetup(plan.First(plan.Size())))
  }

  function NodeAfter(before: Before, plan: Plan, port: nat, node: Ip): Table
    requires plan.hops != [] && node in before.nodes
  {
    ExecAll(before.nodes[node], NodeSetup(node, plan.First(plan.Size()), Text.Decimal(port)))
  }

  /** A packet of a local process leaves the sender through OUTPUT. */
  function Emit(t: Table, p: Packet): Packet {
    Traverse(t.output, p)
  }

  /** A packet that reaches a forwarding host goes through PREROUTING, then POSTROUTING. */
  function Relay(t: Table, p: Packet): Packet {
    Traverse(t.postrouting, Traverse(t.prerouting, p))
  }

  function HopOf(plan: Plan, i: nat, j: nat): Ip
    requires plan.hops != []
  {
    plan.hops[(i * |plan.dsts| + j) % |plan.hops|]
  }

  // ---------- the flow of a pair ----------

  lemma FlowOfPair(plan: Plan, i: nat, j: nat)
    requires plan.hops != [] && i < |plan.srcs| && j < |plan.dsts|
    ensures i * |plan.dsts| + j < plan.Size()
    ensures plan.At(i * |plan.dsts| + j) == Flow(plan.srcs[i], HopOf(plan, i, j), plan.dsts[j])
  {
    CellInRange(i, j, |plan.srcs|, |plan.dsts|);
    DivModUnique(i * |plan.dsts| + j, i, j, |plan.dsts|);
  }

  /** The pair that iteration `k` serves. */
  lemma PairOfFlow(plan: Plan, k: nat) returns (i: nat, j: nat)
    requires plan.hops != [] && k < plan.Size()
    ensures i < |plan.srcs| && j < |plan.dsts| && k == i * |plan.dsts| + j
    ensures plan.At(k) == Flow(plan.srcs[i], HopOf(plan, i, j), plan.dsts[j])
  {
    QuotientBelow(k, |plan.srcs|, |plan.dsts|);
    i, j := k / |plan.dsts|, k % |plan.dsts|;
    FlowOfPair(plan, i, j);
  }

  lemma SameElement(s: seq<Ip>, i: nat, j: nat)
    requires Seqs.Distinct(s) && i < |s| && j < |s| && s[i] == s[j]
    ensures i == j
  {
  }

  // ---------- leaving the sender ----------

  /** What the sender's chain, OUTPUT or PREROUTING, makes of the packet of a pair. */
  lemma DivertedToItsHop(before: Before, plan: Plan, port: nat, i: nat, j: nat, chain: Chain)
    requires ProperPlan(plan) && i < |plan.srcs| && j < |plan.dsts| && chain != Postrouting
    requires NoMatch(before.sender.On(chain), Packet(plan.srcs[i], plan.dsts[j], port))
    ensures Traverse(SenderAfter(before, plan).On(chain), Packet(plan.srcs[i], plan.dsts[j], port))
      == Packet(plan.srcs[i], HopOf(plan, i, j), port)
  {
    var fs, p := plan.First(plan.Size()), Packet(plan.srcs[i], plan.dsts[j], port);
    var k := i * |plan.dsts| + j;
    FlowOfPair(plan, i, j);
    FirstAt(plan, plan.Size(), k);
    HasOwnRule(fs, k, chain);
    forall r | r in RulesOn(SenderSetup(fs), chain) && Matches(r, p) ensures r == OwnRule(fs[k]) {
      var k' := OwnRuleOfSome(fs, r, chain);
      FirstAt(plan, plan.Size(), k');
      SameFlow(plan, i, j, k');
    }
    AppendsExtend(before.sender, SenderSetup(fs), chain);
    TraverseTo(before.sender.On(chain), RulesOn(SenderSetup(fs), chain), p, OwnRule(fs[k]));
  }

  /** A packet that the sender itself emits. */
  lemma EmittedToItsHop(before: Before, plan: Plan, port: nat, i: nat, j: nat)
    requires ProperPlan(plan) && Unclaimed(before, plan, port)
    requires i < |plan.srcs| && j < |plan.dsts|
    ensures Emit(SenderAfter(before, plan), Packet(plan.srcs[i], plan.dsts[j], port))
      == Packet(plan.srcs[i], HopOf(plan, i, j), port)
  {
    assert plan.srcs[i] in plan.srcs && plan.dsts[j] in plan.dsts;
    DivertedToItsHop(before, plan, port, i, j, Output);
  }

  /** A packet that reaches the sender from elsewhere goes through PREROUTING to the same
      hop. */
  lemma RoutedToItsHop(before: Before, plan: Plan, port: nat, i: nat, j: nat)
    requires ProperPlan(plan) && i < |plan.srcs| && j < |plan.dsts|
    requires NoMatch(before.sender.prerouting, Packet(plan.srcs[i], plan.dsts[j], port))
    ensures Traverse(SenderAfter(before, plan).prerouting, Packet(plan.srcs[i], plan.dsts[j], port))
      == Packet(plan.srcs[i], HopOf(plan, i, j), port)
  {
    DivertedToItsHop(before, plan, port, i, j, Prerouting);
  }

  /** A pair has one flow only. */
  lemma SameFlow(plan: Plan, i: nat, j: nat, k: nat)
    requires ProperPlan(plan) && i < |plan.srcs| && j < |plan.dsts| && k < plan.Size()
    requires plan.At(k).src == plan.srcs[i] && plan.At(k).dst == plan.dsts[j]
    ensures plan.At(k) == Flow(plan.srcs[i], HopOf(plan, i, j), plan.dsts[j])
  {
    var i', j' := PairOfFlow(plan, k);
    SameElement(plan.srcs, i, i');
    SameElement(plan.dsts, j, j');
  }

  /** If every matching rule does the same, and there is one, that is what happens. */
  lemma TraverseTo(base: seq<Rule>, rules: seq<Rule>, p: Packet, r: Rule)
    requires NoMatch(base, p) && r in rules && Matches(r, p)
    requires forall q :: q in rules && Matches(q, p) ==> q.target == r.target
    ensures Traverse(base + rules, p) == Rewrite(p, r.target)
  {
    FirstMatchSkips(base, rules, p);
    FirstMatchIsAMatch(rules, p);
  }

  // ---------- through the overlay node ----------

  lemma {:induction false} FirstMatchConcat(a: seq<Rule>, b: seq<Rule>, p: Packet)
    ensures FirstMatch(a + b, p) == if FirstMatch(a, p).Some? then FirstMatch(a, p) else FirstMatch(b, p)
  {
    if a == [] {
      Seqs.NilLeft(b);
    } else {
      Seqs.HeadTail(a, b);
      FirstMatchConcat(a[1..], b, p);
    }
  }

  /** The first column, from `from` on, of row i whose hop is that of column j. */
  function FirstColumnFrom(plan: Plan, i: nat, j: nat, from: nat): (c: nat)
    requires plan.hops != [] && from <= j
    ensures from <= c <= j && HopOf(plan, i, c) == HopOf(plan, i, j)
    ensures forall m :: from <= m < c ==> HopOf(plan, i, m) != HopOf(plan, i, j)
    decreases j - from
  {
    if HopOf(plan, i, from) == HopOf(plan, i, j) then from else FirstColumnFrom(plan, i, j, from + 1)
  }

  function FirstColumn(plan: Plan, i: nat, j: nat): nat
    requires plan.hops != []
  {
    FirstColumnFrom(plan, i, j, 0)
  }

  /** In every row the hops of the columns are pairwise different. */
  ghost predicate RowsDistinct(plan: Plan)
    requires plan.hops != []
  {
    forall i: nat, j: nat :: i < |plan.srcs| && j < |plan.dsts| ==> FirstColumn(plan, i, j) == j
  }

  lemma RowsDistinctMeans(plan: Plan)
    requires plan.hops != []
    ensures RowsDistinct(plan) <==> forall i: nat, m: nat, j: nat ::
      i < |plan.srcs| && m < j < |plan.dsts| ==> HopOf(plan, i, m) != HopOf(plan, i, j)
  {
    if RowsDistinct(plan) {
      forall i: nat, m: nat, j: nat | i < |plan.srcs| && m < j < |plan.dsts|
        ensures HopOf(plan, i, m) != HopOf(plan, i, j)
      {
        assert FirstColumn(plan, i, j) == j;
      }
    }
  }

  /** With distinct hops the columns of a row that share a hop are congruent modulo the
      number of hops, so the first `numHops` of them all use different hops. */
  lemma FirstColumnOfDistinctHops(plan: Plan, i: nat, j: nat)
    requires plan.hops != [] && Seqs.Distinct(plan.hops)
    ensures FirstColumn(plan, i, j) == j % |plan.hops|
  {
    var m, c := |plan.hops|, FirstColumn(plan, i, j);
    SameHop(plan, i, j);
    SameHop(plan, i, c);
    if c % m < j % m {
      ModDistinct(i * |plan.dsts|, c % m, j % m, m);
    }
  }

  lemma SameHop(plan: Plan, i: nat, j: nat)
    requires plan.hops != []
    ensures j % |plan.hops| <= j && j % |plan.hops| < |plan.hops|
    ensures HopOf(plan, i, j % |plan.hops|) == HopOf(plan, i, j)
    ensures j < |plan.hops| ==> j % |plan.hops| == j
  {
    ModOfSum(i * |plan.dsts|, j, |plan.hops|);
    ModFacts(j, |plan.hops|);
  }

  /** For distinct hops, rows of different hops are rows that are short enough. */
  lemma RowsDistinctIffEnoughHops(plan: Plan)
    requires plan.hops != [] && Seqs.Distinct(plan.hops) && plan.srcs != []
    ensures RowsDistinct(plan) <==> |plan.dsts| <= |plan.hops|
  {
    forall i: nat, j: nat | i < |plan.srcs| && j < |plan.dsts|
      ensures FirstColumn(plan, i, j) == j <==> j < |plan.hops|
    {
      FirstColumnOfDistinctHops(plan, i, j);
      ModFacts(j, |plan.hops|);
    }
    if |plan.dsts| > |plan.hops| {
      assert FirstColumn(plan, 0, |plan.hops|) != |plan.hops|;
    }
  }

  /** What the rules of one flow do to a packet that does not come from its receiver. */
  lemma OneFlowCaptures(node: Ip, src: Ip, dst: Ip, port: string, p: Packet)
    requires p.src != dst
    ensures FirstMatch(RulesOn(NodeCommands(node, src, dst, port), Prerouting), p)
      == if Matches(ForwardIn(node, src, dst, port), p) then Some(ForwardIn(node, src, dst, port)) else None
  {
    RulesOfOneFlow(node, src, dst, port);
    var towards, back := ForwardIn(node, src, dst, port), ForwardIn(node, dst, src, port);
    assert [towards, back] == [towards] + [back];
    Seqs.Cons(towards, [back]);
    assert FirstMatch([back], p) == None;
  }

  /** The PREROUTING rule, among those for the flows `fs`, that catches the packet which the
      source of `f` sends to its hop. */
  function Capture(fs: seq<Flow>, port: nat, f: Flow): Option<Rule> {
    FirstMatch(RulesOn(NodeSetup(f.hop, fs, Text.Decimal(port)), Prerouting), Packet(f.src, f.hop, port))
  }

  /** Flow `g` is one whose rule catches the packet of `f` on its hop. */
  predicate Shares(g: Flow, f: Flow) {
    g.hop == f.hop && g.src == f.src
  }

  lemma CaptureStep(fs: seq<Flow>, g: Flow, port: nat, f: Flow)
    requires g.dst != f.src
    ensures Capture(fs + [g], port, f) ==
      if Capture(fs, port, f) == None && Shares(g, f) then Some(ForwardIn(g.hop, g.src, g.dst, Text.Decimal(port)))
      else Capture(fs, port, f)
  {
    var text, p := Text.Decimal(port), Packet(f.src, f.hop, port);
    var earlier := NodeSetup(f.hop, fs, text);
    SetupExtends(fs, g, f.hop, text);
    if g.hop == f.hop {
      var more := NodeCommands(f.hop, g.src, g.dst, text);
      RulesOnConcat(earlier, more, Prerouting);
      FirstMatchConcat(RulesOn(earlier, Prerouting), RulesOn(more, Prerouting), p);
      OneFlowCaptures(f.hop, g.src, g.dst, text, p);
    }
  }

  ghost predicate NotADestination(fs: seq<Flow>, src: Ip) {
    forall k :: 0 <= k < |fs| ==> fs[k].dst != src
  }

  lemma {:induction false} NothingCaptured(fs: seq<Flow>, port: nat, f: Flow)
    requires NotADestination(fs, f.src) && forall k :: 0 <= k < |fs| ==> !Shares(fs[k], f)
    ensures Capture(fs, port, f) == None
  {
    if fs != [] {
      var n := |fs| - 1;
      NothingCaptured(fs[..n], port, f);
      CaptureStep(fs[..n], fs[n], port, f);
      Seqs.Unsnoc(fs);
    }
  }

  /** The rule that catches the packet is that of its own flow, when no earlier flow of the
      same source uses the same hop; later ones do not matter. */
  lemma {:induction false} FirstCapture(fs: seq<Flow>, port: nat, k: nat)
    requires k < |fs| && NotADestination(fs, fs[k].src)
    requires forall k' :: 0 <= k' < k ==> !Shares(fs[k'], fs[k])
    ensures Capture(fs, port, fs[k]) == Some(ForwardIn(fs[k].hop, fs[k].src, fs[k].dst, Text.Decimal(port)))
  {
    var n := |fs| - 1;
    if k < n {
      FirstCapture(fs[..n], port, k);
    } else {
      NothingCaptured(fs[..n], port, fs[k]);
    }
    CaptureStep(fs[..n], fs[n], port, fs[k]);
    Seqs.Unsnoc(fs);
  }

  /** The packet of a pair is caught by the rule of the first column with its hop. */
  lemma CapturedByFirstColumn(plan: Plan, port: nat, i: nat, j: nat)
    requires ProperPlan(plan) && i < |plan.srcs| && j < |plan.dsts|
    ensures var h, c := HopOf(plan, i, j), FirstColumn(plan, i, j);
      Capture(plan.First(plan.Size()), port, Flow(plan.srcs[i], h, plan.dsts[c]))
      == Some(ForwardIn(h, plan.srcs[i], plan.dsts[c], Text.Decimal(port)))
  {
    var c := FirstColumn(plan, i, j);
    var fs, k := plan.First(plan.Size()), i * |plan.dsts| + c;
    FlowOfPair(plan, i, c);
    FirstAt(plan, plan.Size(), k);
    forall k' | 0 <= k' < |fs|
      ensures fs[k'].dst != plan.srcs[i]
      ensures k' < k ==> !Shares(fs[k'], fs[k])
    {
      NotSharedBefore(plan, i, j, k');
    }
    FirstCapture(fs, port, k);
  }

  lemma NotSharedBefore(plan: Plan, i: nat, j: nat, k: nat)
    requires ProperPlan(plan) && i < |plan.srcs| && j < |plan.dsts| && k < plan.Size()
    ensures plan.First(plan.Size())[k].dst != plan.srcs[i]
    ensures k < i * |plan.dsts| + FirstColumn(plan, i, j) && plan.First(plan.Size())[k].src == plan.srcs[i] ==>
      plan.First(plan.Size())[k].hop != HopOf(plan, i, j)
  {
    FirstAt(plan, plan.Size(), k);
    var i', j' := PairOfFlow(plan, k);
    if plan.srcs[i'] == plan.srcs[i] {
      SameElement(plan.srcs, i', i);
    }
  }

  /** A packet that no earlier rule matches sees only what was appended. */
  lemma TraverseAppended(t: Table, cs: seq<Command>, chain: Chain, p: Packet)
    requires Appends(cs) && NoMatch(t.On(chain), p)
    ensures Traverse(ExecAll(t, cs).On(chain), p) == Traverse(RulesOn(cs, chain), p)
  {
    AppendsExtend(t, cs, chain);
    FirstMatchSkips(t.On(chain), RulesOn(cs, chain), p);
  }

  lemma DestinationRewritten(before: Before, plan: Plan, port: nat, i: nat, j: nat)
    requires ProperPlan(plan) && Unclaimed(before, plan, port)
    requires i < |plan.srcs| && j < |plan.dsts|
    ensures HopOf(plan, i, j) in before.nodes
    ensures var h := HopOf(plan, i, j);
      Traverse(NodeAfter(before, plan, port, h).prerouting, Packet(plan.srcs[i], h, port))
      == Packet(plan.srcs[i], plan.dsts[FirstColumn(plan, i, j)], port)
  {
    var h := HopOf(plan, i, j);
    var cs := NodeSetup(h, plan.First(plan.Size()), Text.Decimal(port));
    assert h in plan.hops && plan.srcs[i] in plan.srcs;
    TraverseAppended(before.nodes[h], cs, Prerouting, Packet(plan.srcs[i], h, port));
    CapturedByFirstColumn(plan, port, i, j);
  }

  lemma SourceRewritten(before: Before, plan: Plan, port: nat, i: nat, j: nat)
    requires ProperPlan(plan) && Unclaimed(before, plan, port)
    requires i < |plan.srcs| && j < |plan.dsts|
    ensures var h := HopOf(plan, i, j);
      Traverse(NodeAfter(before, plan, port, h).postrouting, Packet(plan.srcs[i], plan.dsts[j], port))
      == Packet(h, plan.dsts[j], port)
  {
    var h, text := HopOf(plan, i, j), Text.Decimal(port);
    var fs := plan.First(plan.Size());
    var k := i * |plan.dsts| + j;
    assert h in plan.hops && plan.srcs[i] in plan.srcs && plan.dsts[j] in plan.dsts;
    FlowOfPair(plan, i, j);
    FirstAt(plan, plan.Size(), k);
    HasForwardOut(h, fs, text, k);
    var rules := RulesOn(NodeSetup(h, fs, text), Postrouting);
    forall r | r in rules ensures r.target == Snat(h) {
      ForwardOutOfSome(h, fs, text, r);
    }
    AppendsExtend(before.nodes[h], NodeSetup(h, fs, text), Postrouting);
    TraverseTo(before.nodes[h].postrouting, rules, Packet(plan.srcs[i], plan.dsts[j], port),
      ForwardOut(h, plan.srcs[i], plan.dsts[j]));
  }

  /** Main result, exact. Whatever the numbers of sources, hops and destinations, and even
      if hops repeat, the packet srcs[i] -> dsts[j] is sent to the hop of pair (i, j) and
      leaves it, with the hop as its source, for the destination of the first column of row
      i that has this hop. */
  lemma WhereFlowsGo(before: Before, plan: Plan, port: nat, i: nat, j: nat)
    requires ProperPlan(plan) && Unclaimed(before, plan, port)
    requires i < |plan.srcs| && j < |plan.dsts|
    ensures var h := HopOf(plan, i, j);
      var sent := Emit(SenderAfter(before, plan), Packet(plan.srcs[i], plan.dsts[j], port));
      && sent == Packet(plan.srcs[i], h, port)
      && Relay(NodeAfter(before, plan, port, h), sent) == Packet(h, plan.dsts[FirstColumn(plan, i, j)], port)
  {
    EmittedToItsHop(before, plan, port, i, j);
    DestinationRewritten(before, plan, port, i, j);
    SourceRewritten(before, plan, port, i, FirstColumn(plan, i, j));
  }

  ghost predicate Delivered(before: Before, plan: Plan, port: nat, i: nat, j: nat)
    requires plan.hops != [] && i < |plan.srcs| && j < |plan.dsts|
    requires forall a :: a in plan.hops ==> a in before.nodes
  {
    var h := HopOf(plan, i, j);
    assert h in plan.hops;
    Relay(NodeAfter(before, plan, port, h),
          Emit(SenderAfter(before, plan), Packet(plan.srcs[i], plan.dsts[j], port)))
    == Packet(h, plan.dsts[j], port)
  }

  ghost predicate AllDelivered(before: Before, plan: Plan, port: nat)
    requires plan.hops != [] && forall a :: a in plan.hops ==> a in before.nodes
  {
    forall i: nat, j: nat :: i < |plan.srcs| && j < |plan.dsts| ==> Delivered(before, plan, port, i, j)
  }

  lemma DeliveredIff(before: Before, plan: Plan, port: nat, i: nat, j: nat)
    requires ProperPlan(plan) && Unclaimed(before, plan, port)
    requires i < |plan.srcs| && j < |plan.dsts|
    ensures Delivered(before, plan, port, i, j) <==> FirstColumn(plan, i, j) == j
  {
    WhereFlowsGo(before, plan, port, i, j);
    var c := FirstColumn(plan, i, j);
    if plan.dsts[c] == plan.dsts[j] {
      SameElement(plan.dsts, c, j);
    }
  }

  /** End-to-end forwarding holds for every pair exactly when no row uses a hop twice. */
  lemma AllDeliveredIff(before: Before, plan: Plan, port: nat)
    requires ProperPlan(plan) && Unclaimed(before, plan, port)
    ensures AllDelivered(before, plan, port) <==> RowsDistinct(plan)
  {
    forall i: nat, j: nat | i < |plan.srcs| && j < |plan.dsts|
      ensures Delivered(before, plan, port, i, j) <==> FirstColumn(plan, i, j) == j
    {
      DeliveredIff(before, plan, port, i, j);
    }
  }

  /** For distinct hops: exactly when the receiver has no more addresses than there are
      overlay nodes. The code checks neither. */
  lemma AllDeliveredIffEnoughHops(before: Before, plan: Plan, port: nat)
    requires ProperPlan(plan) && Unclaimed(before, plan, port)
    requires plan.srcs != [] && Seqs.Distinct(plan.hops)
    ensures AllDelivered(before, plan, port) <==> |plan.dsts| <= |plan.hops|
  {
    AllDeliveredIff(before, plan, port);
    RowsDistinctIffEnoughHops(plan);
  }

  /** The sender diverts every TCP port of a destination, but a hop relays only the
      receiver's: a segment for another port stays addressed to the hop. */
  lemma OtherPortsStopAtHop(before: Before, plan: Plan, port: nat, other: nat, i: nat, j: nat)
    requires ProperPlan(plan) && Unclaimed(before, plan, port) && Unclaimed(before, plan, other)
    requires i < |plan.srcs| && j < |plan.dsts| && other != port
    ensures var h := HopOf(plan, i, j);
      var sent := Emit(SenderAfter(before, plan), Packet(plan.srcs[i], plan.dsts[j], other));
      && sent == Packet(plan.srcs[i], h, other)
      && Traverse(NodeAfter(before, plan, port, h).prerouting, sent) == sent
  {
    EmittedToItsHop(before, plan, other, i, j);
    var h, text := HopOf(plan, i, j), Text.Decimal(port);
    var p := Packet(plan.srcs[i], h, other);
    var cs := NodeSetup(h, plan.First(plan.Size()), text);
    assert h in plan.hops && plan.srcs[i] in plan.srcs;
    TraverseAppended(before.nodes[h], cs, Prerouting, p);
    FirstMatchIsAMatch(RulesOn(cs, Prerouting), p);
    if FirstMatch(RulesOn(cs, Prerouting), p).Some? {
      var _ := ForwardInOfSome(h, plan.First(plan.Size()), text, FirstMatch(RulesOn(cs, Prerouting), p).value);
      Text.AtoiInvertsDecimal(port);
      Text.AtoiInvertsDecimal(other);
    }
  }
}
