/** The loop that pings the overlay nodes and skips the silent ones, as it is written: a
    silent entry is overwritten by the next one, and nothing else moves. */
module Probing {
  import opened NatTable
  import Seqs

  /** What one turn of the loop does to the index and the table. */
  datatype Loop = Loop(i: nat, nodes: seq<Ip>)

  /** The entry behind the last one of a full table is not there to be read: the loop has
      left defined ground, and the model lets it stay where it is. */
  function Turn(responds: Ip -> bool, numHops: nat, s: Loop): (t: Loop)
    requires numHops <= |s.nodes|
    ensures |t.nodes| == |s.nodes|
  {
    if s.i >= numHops then s
    else if responds(s.nodes[s.i]) then s.(i := s.i + 1)
    else if s.i + 1 < |s.nodes| then s.(nodes := s.nodes[s.i := s.nodes[s.i + 1]])
    else s
  }

  function After(responds: Ip -> bool, numHops: nat, nodes: seq<Ip>, turns: nat): (s: Loop)
    requires numHops <= |nodes|
    ensures |s.nodes| == |nodes|
  {
    if turns == 0 then Loop(0, nodes) else Turn(responds, numHops, After(responds, numHops, nodes, turns - 1))
  }

  ghost predicate Returns(responds: Ip -> bool, numHops: nat, nodes: seq<Ip>)
    requires numHops <= |nodes|
  {
    exists turns: nat :: After(responds, numHops, nodes, turns).i >= numHops
  }

  /** Every silent node is followed by one that answers. */
  ghost predicate Passable(responds: Ip -> bool, numHops: nat, nodes: seq<Ip>)
    requires numHops <= |nodes|
  {
    forall k :: 0 <= k < numHops ==> CanPass(responds, nodes, k)
  }

  predicate CanPass(responds: Ip -> bool, nodes: seq<Ip>, k: nat)
    requires k < |nodes|
  {
    responds(nodes[k]) || (k + 1 < |nodes| && responds(nodes[k + 1]))
  }

  /** What the loop leaves in the table once it has passed the first `done` entries. */
  function Kept(responds: Ip -> bool, nodes: seq<Ip>, done: nat): (r: seq<Ip>)
    requires done <= |nodes|
    ensures |r| == |nodes|
    ensures forall k :: 0 <= k < done ==> r[k] == KeptAt(responds, nodes, k)
    ensures forall k :: done <= k < |nodes| ==> r[k] == nodes[k]
  {
    seq(|nodes|, k requires 0 <= k < |nodes| => if k < done then KeptAt(responds, nodes, k) else nodes[k])
  }

  function KeptAt(responds: Ip -> bool, nodes: seq<Ip>, k: nat): Ip
    requires k < |nodes|
  {
    if responds(nodes[k]) || k + 1 == |nodes| then nodes[k] else nodes[k + 1]
  }

  method ProbeOverlayNodes(responds: Ip -> bool, numHops: nat, nodes: array<Ip>) returns (i: nat)
    requires numHops <= nodes.Length && Passable(responds, numHops, nodes[..])
    modifies nodes
    ensures i == numHops && nodes[..] == Kept(responds, old(nodes[..]), numHops)
  {
    ghost var was := nodes[..];
    i := 0;
    while i < numHops
      invariant i <= numHops && was == old(nodes[..])
      invariant forall k :: 0 <= k < i ==> nodes[k] == KeptAt(responds, was, k)
      invariant forall k :: i < k < nodes.Length ==> nodes[k] == was[k]
      invariant i < nodes.Length ==>
        nodes[i] == was[i] || (i + 1 < nodes.Length && !responds(was[i]) && nodes[i] == was[i + 1] && i < numHops)
      decreases numHops - i, if i < numHops && responds(nodes[i]) then 0 else 1
    {
      assert CanPass(responds, was, i);
      if responds(nodes[i]) {
        i := i + 1;
      } else {
        nodes[i] := nodes[i + 1];
      }
    }
  }

  /** A kept entry answers, and is the original one or, in the place of a silent one, the
      next. */
  lemma KeptAnswer(responds: Ip -> bool, numHops: nat, nodes: seq<Ip>, k: nat)
    requires k < numHops <= |nodes| && Passable(responds, numHops, nodes)
    ensures responds(Kept(responds, nodes, numHops)[k])
    ensures Kept(responds, nodes, numHops)[k] == nodes[k]
      || (k + 1 < |nodes| && !responds(nodes[k]) && Kept(responds, nodes, numHops)[k] == nodes[k + 1])
  {
    assert CanPass(responds, nodes, k);
  }

  // ---------- when it ends ----------

  /** From entry i the loop takes one turn, or two past a silent node. */
  lemma PassesEntry(responds: Ip -> bool, numHops: nat, nodes: seq<Ip>, i: nat)
    requires i < numHops <= |nodes| && CanPass(responds, nodes, i)
    ensures var s, t := Loop(i, Kept(responds, nodes, i)), Loop(i + 1, Kept(responds, nodes, i + 1));
      Turn(responds, numHops, s) == t || Turn(responds, numHops, Turn(responds, numHops, s)) == t
  {
    var kept, next := Kept(responds, nodes, i), Kept(responds, nodes, i + 1);
    if responds(nodes[i]) {
      assert next == kept;
    } else {
      assert next == kept[i := kept[i + 1]];
    }
  }

  lemma {:induction false} ReachesEntry(responds: Ip -> bool, numHops: nat, nodes: seq<Ip>, i: nat)
      returns (turns: nat)
    requires i <= numHops <= |nodes| && Passable(responds, numHops, nodes)
    ensures After(responds, numHops, nodes, turns) == Loop(i, Kept(responds, nodes, i))
  {
    if i == 0 {
      turns := 0;
      assert Kept(responds, nodes, 0) == nodes;
    } else {
      turns := ReachesEntry(responds, numHops, nodes, i - 1);
      assert CanPass(responds, nodes, i - 1);
      PassesEntry(responds, numHops, nodes, i - 1);
      var one := After(responds, numHops, nodes, turns + 1);
      if one == Loop(i, Kept(responds, nodes, i)) {
        turns := turns + 1;
      } else {
        turns := turns + 2;
        assert After(responds, numHops, nodes, turns) == Turn(responds, numHops, one);
      }
    }
  }

  /** The loop is held in front of entry k, which does not answer and whose successor does
      not either, or does not exist. */
  ghost predicate Held(responds: Ip -> bool, s: Loop, k: nat) {
    k < |s.nodes| && s.i <= k && !CanPass(responds, s.nodes, k)
  }

  lemma StaysHeld(responds: Ip -> bool, numHops: nat, s: Loop, k: nat)
    requires k < numHops <= |s.nodes| && Held(responds, s, k)
    ensures Held(responds, Turn(responds, numHops, s), k)
  {
  }

  /** Two silent nodes in a row hold the loop for ever. */
  lemma {:induction false} NeverPasses(responds: Ip -> bool, numHops: nat, nodes: seq<Ip>, k: nat, turns: nat)
    requires k < numHops <= |nodes| && !CanPass(responds, nodes, k)
    ensures Held(responds, After(responds, numHops, nodes, turns), k)
  {
    if turns > 0 {
      NeverPasses(responds, numHops, nodes, k, turns - 1);
      StaysHeld(responds, numHops, After(responds, numHops, nodes, turns - 1), k);
    }
  }

  /** The loop returns exactly when every silent entry is followed by one that answers,
      counting the entry behind the last one if the table has it. */
  lemma ReturnsIffPassable(responds: Ip -> bool, numHops: nat, nodes: seq<Ip>)
    requires numHops <= |nodes|
    ensures Returns(responds, numHops, nodes) <==> Passable(responds, numHops, nodes)
  {
    if Passable(responds, numHops, nodes) {
      var turns := ReachesEntry(responds, numHops, nodes, numHops);
    } else {
      var k :| 0 <= k < numHops && !CanPass(responds, nodes, k);
      forall turns: nat ensures After(responds, numHops, nodes, turns).i < numHops {
        NeverPasses(responds, numHops, nodes, k, turns);
      }
    }
  }

  // ---------- what it keeps ----------

  /** The entries that the loop reads. */
  function Read(numHops: nat, nodes: seq<Ip>): (r: seq<Ip>)
    requires numHops <= |nodes|
    ensures numHops <= |r| <= |nodes| && forall k :: 0 <= k < |r| ==> r[k] == nodes[k]
  {
    if numHops < |nodes| then nodes[..numHops + 1] else nodes
  }

  /** A silent node in front of another leaves that other one twice. */
  lemma SilentLeavesDouble(responds: Ip -> bool, numHops: nat, nodes: seq<Ip>, k: nat)
    requires k + 1 < numHops <= |nodes| && Passable(responds, numHops, nodes) && !responds(nodes[k])
    ensures var kept := Kept(responds, nodes, numHops); kept[k] == kept[k + 1] == nodes[k + 1]
  {
    assert CanPass(responds, nodes, k);
  }

  /** The kept nodes are again pairwise different exactly when only the last one may have
      been silent. `EndToEnd` says what a double costs. */
  lemma KeptDistinctIff(responds: Ip -> bool, numHops: nat, nodes: seq<Ip>)
    requires numHops <= |nodes| && Passable(responds, numHops, nodes) && Seqs.Distinct(Read(numHops, nodes))
    ensures Seqs.Distinct(Kept(responds, nodes, numHops)[..numHops])
      <==> forall k :: 0 <= k < numHops - 1 ==> responds(nodes[k])
  {
    var kept := Kept(responds, nodes, numHops)[..numHops];
    if Seqs.Distinct(kept) {
      forall k | 0 <= k < numHops - 1 ensures responds(nodes[k]) {
        if !responds(nodes[k]) {
          SilentLeavesDouble(responds, numHops, nodes, k);
          assert false;
        }
      }
    }
    if forall k :: 0 <= k < numHops - 1 ==> responds(nodes[k]) {
      var prior := Read(numHops, nodes);
      forall i, j | 0 <= i < j < numHops ensures kept[i] != kept[j] {
        assert kept[i] == prior[i] && responds(nodes[i]);
        KeptAnswer(responds, numHops, nodes, j);
        assert kept[j] == prior[j] || (j + 1 < |prior| && kept[j] == prior[j + 1]);
      }
    }
  }
}
