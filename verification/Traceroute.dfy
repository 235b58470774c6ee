/** How traceroute output becomes the route that Darshana uses, and whether that route
    shows enough to draw a conclusion from. */
module Traceroute {
  import Seqs

  const NONE := "NONE"

  /** An output line cut at double blanks: number, address or `*`, round trip. */
  type Line = seq<string>

  datatype Node = Node(ip: string, rtt: string)

  datatype Route = Route(nodes: seq<Node>, numHops: nat, numNones: nat, protocol: string)

  /** The output of one traceroute; its first and last lines carry no hop. */
  datatype ProtoResults = ProtoResults(protocol: string, results: seq<Line>)

  predicate WellFormed(p: ProtoResults) {
    && |p.results| >= 3
    && forall i :: 1 <= i < |p.results| - 1 ==>
         |p.results[i]| >= 2 && (p.results[i][1] != "*" ==> |p.results[i]| >= 3)
  }

  function NodeOf(line: Line): Node
    requires |line| >= 2 && (line[1] != "*" ==> |line| >= 3)
  {
    if line[1] == "*" then Node(NONE, NONE) else Node(line[1], line[2])
  }

  predicate Silent(n: Node) {
    n.ip == NONE
  }

  function CountNones(nodes: seq<Node>): (n: nat)
    ensures n <= |nodes|
  {
    if nodes == [] then 0 else CountNones(nodes[..|nodes| - 1]) + if Silent(nodes[|nodes| - 1]) then 1 else 0
  }

  lemma {:induction false} CountIsCardinality(nodes: seq<Node>)
    ensures CountNones(nodes) == |set i | 0 <= i < |nodes| && nodes[i].ip == "NONE"|
  {
    if nodes != [] {
      var n := |nodes| - 1;
      CountIsCardinality(nodes[..n]);
      var before := set i | 0 <= i < n && nodes[..n][i].ip == "NONE";
      assert (set i | 0 <= i < |nodes| && nodes[i].ip == "NONE")
        == if nodes[n].ip == "NONE" then before + {n} else before;
    }
  }

  /** A route whose figures describe its nodes. */
  predicate Consistent(r: Route) {
    r.numHops == |r.nodes| && r.numHops >= 1 && r.numNones == CountNones(r.nodes)
  }

  /** No host calls itself by the word that stands for silence. */
  predicate NoHostNamedNone(p: ProtoResults) {
    forall i :: 1 <= i < |p.results| - 1 ==> |p.results[i]| >= 2 && p.results[i][1] != NONE
  }

  method TreatOne(p: ProtoResults) returns (r: Route)
    requires WellFormed(p) && NoHostNamedNone(p)
    ensures Consistent(r) && r.protocol == p.protocol && r.numHops == |r.nodes| == |p.results| - 2
    ensures forall i :: 0 <= i < r.numHops ==>
      var line := p.results[i + 1];
      r.nodes[i] == if line[1] == "*" then Node("NONE", "NONE") else Node(line[1], line[2])
    ensures r.numNones == |set i | 0 <= i < |r.nodes| && r.nodes[i].ip == "NONE"|
  {
    var numNones := 0;
    var nodes := [];
    for i := 1 to |p.results| - 1
      invariant |nodes| == i - 1 && numNones == CountNones(nodes)
      invariant forall k :: 0 <= k < i - 1 ==> nodes[k] == NodeOf(p.results[k + 1])
    {
      var line := p.results[i];
      var node: Node;
      if line[1] == "*" {
        node := Node(NONE, NONE);
        numNones := numNones + 1;
      } else {
        node := Node(line[1], line[2]);
      }
      Seqs.Snoc(nodes, node);
      nodes := nodes + [node];
    }
    r := Route(nodes, |nodes|, numNones, p.protocol);
    CountIsCardinality(nodes);
  }

  method TreatTracerouteData(outputs: seq<ProtoResults>) returns (routes: seq<Route>)
    requires forall i :: 0 <= i < |outputs| ==> WellFormed(outputs[i]) && NoHostNamedNone(outputs[i])
    ensures |routes| == |outputs|
    ensures forall i :: 0 <= i < |routes| ==>
      Consistent(routes[i]) && routes[i].protocol == outputs[i].protocol && routes[i].numHops == |outputs[i].results| - 2
  {
    routes := [];
    for k := 0 to |outputs|
      invariant |routes| == k
      invariant forall i :: 0 <= i < k ==>
        Consistent(routes[i]) && routes[i].protocol == outputs[i].protocol && routes[i].numHops == |outputs[i].results| - 2
    {
      var r := TreatOne(outputs[k]);
      routes := routes + [r];
    }
  }

  /** `distinct()`: each value where it occurs first. */
  function Distinct(xs: seq<string>): (r: seq<string>)
    ensures forall x :: x in r <==> x in xs
    ensures forall i, j :: 0 <= i < j < |r| ==> r[i] != r[j]
  {
    if xs == [] then [] else
      var r, x := Distinct(xs[..|xs| - 1]), xs[|xs| - 1];
      Seqs.Unsnoc(xs);
      if x in r then r else r + [x]
  }

  function KnownAses(nodes: seq<Node>, asOf: string -> string): seq<string> {
    if nodes == [] then [] else
      var earlier, n := KnownAses(nodes[..|nodes| - 1], asOf), nodes[|nodes| - 1];
      if Silent(n) then earlier else earlier + [asOf(n.ip)]
  }

  /** The ASes of a route: those of the hosts that answered, and one more such host adds its
      AS at the end unless it is there. */
  lemma AsesGrow(nodes: seq<Node>, node: Node, asOf: string -> string)
    ensures Distinct(KnownAses([], asOf)) == []
    ensures var before := Distinct(KnownAses(nodes, asOf));
      Distinct(KnownAses(nodes + [node], asOf)) ==
        if node.ip == "NONE" || asOf(node.ip) in before then before else before + [asOf(node.ip)]
  {
    Seqs.Snoc(nodes, node);
    Seqs.Snoc(KnownAses(nodes, asOf), asOf(node.ip));
  }

  lemma {:induction false} AsesAre(nodes: seq<Node>, asOf: string -> string, x: string)
    ensures x in Distinct(KnownAses(nodes, asOf)) <==>
      exists i :: 0 <= i < |nodes| && nodes[i].ip != "NONE" && asOf(nodes[i].ip) == x
  {
    if nodes != [] {
      var n := |nodes| - 1;
      AsesAre(nodes[..n], asOf, x);
      if i :| 0 <= i < |nodes| && nodes[i].ip != "NONE" && asOf(nodes[i].ip) == x {
        assert i < n ==> nodes[..n][i] == nodes[i];
      }
      if i :| 0 <= i < n && nodes[..n][i].ip != "NONE" && asOf(nodes[..n][i].ip) == x {
        assert nodes[i] == nodes[..n][i];
      }
    }
  }

  /** The first route with the fewest silent hops, and the list of its ASes without
      repetition; `asOf` is the answer of whois. */
  method MostCompletePath(routes: seq<Route>, asOf: string -> string) returns (best: nat, ases: seq<string>)
    requires routes != []
    ensures best < |routes|
    ensures forall i :: 0 <= i < |routes| ==> routes[best].numNones <= routes[i].numNones
    ensures forall i :: 0 <= i < best ==> routes[best].numNones < routes[i].numNones
    ensures ases == Distinct(KnownAses(routes[best].nodes, asOf))
    ensures forall x :: x in ases <==>
      exists i :: 0 <= i < |routes[best].nodes| && routes[best].nodes[i].ip != "NONE" && asOf(routes[best].nodes[i].ip) == x
  {
    best := 0;
    for i := 1 to |routes|
      invariant best < i
      invariant forall k :: 0 <= k < i ==> routes[best].numNones <= routes[k].numNones
      invariant forall k :: 0 <= k < best ==> routes[best].numNones < routes[k].numNones
    {
      if routes[i].numNones < routes[best].numNones {
        best := i;
      }
    }
    var nodes := routes[best].nodes;
    var all := [];
    for i := 0 to |nodes|
      invariant all == KnownAses(nodes[..i], asOf)
    {
      Seqs.Grow(nodes, i);
      Seqs.Snoc(nodes[..i], nodes[i]);
      if nodes[i].ip != NONE {
        all := all + [asOf(nodes[i].ip)];
      }
    }
    Seqs.Whole(nodes);
    ases := Distinct(all);
    forall x ensures x in ases <==> exists i :: 0 <= i < |nodes| && nodes[i].ip != "NONE" && asOf(nodes[i].ip) == x {
      AsesAre(nodes, asOf, x);
    }
  }

  /** The visibility test, which divides two integers. */
  predicate Inconclusive(r: Route, threshold: real)
    requires r.numHops >= 1
  {
    (r.numNones / r.numHops) as real > threshold
  }

  lemma {:induction false} AllSilentIff(nodes: seq<Node>)
    ensures CountNones(nodes) == |nodes| <==> forall i :: 0 <= i < |nodes| ==> Silent(nodes[i])
  {
    if nodes != [] {
      var n := |nodes| - 1;
      AllSilentIff(nodes[..n]);
      assert forall i :: 0 <= i < n ==> nodes[..n][i] == nodes[i];
    }
  }

  /** With any threshold from 0 to below 1 the result is inconclusive exactly when every
      hop of the route is silent: one answer among any number of hops is enough. */
  lemma InconclusiveIffSilent(r: Route, threshold: real)
    requires Consistent(r) && 0.0 <= threshold < 1.0
    ensures Inconclusive(r, threshold) <==> forall i :: 0 <= i < |r.nodes| ==> Silent(r.nodes[i])
  {
    AllSilentIff(r.nodes);
    if r.numNones < r.numHops {
      assert r.numNones / r.numHops == 0;
    } else {
      assert r.numNones / r.numHops == 1;
    }
  }

  /** The fewest silent hops favour short routes: a chosen route that is entirely silent is
      no longer than any other, and one of its length is silent as well. */
  lemma SilentChoiceIsShortest(quiet: Route, loud: Route)
    requires Consistent(quiet) && Consistent(loud)
    requires forall i :: 0 <= i < |quiet.nodes| ==> Silent(quiet.nodes[i])
    requires quiet.numNones <= loud.numNones
    ensures |loud.nodes| >= |quiet.nodes|
    ensures |loud.nodes| == |quiet.nodes| ==> forall i :: 0 <= i < |loud.nodes| ==> Silent(loud.nodes[i])
  {
    AllSilentIff(quiet.nodes);
    AllSilentIff(loud.nodes);
  }
}
