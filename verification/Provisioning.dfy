/** How the sender gets its source addresses: it counts its interfaces and creates virtual
    ones until there is a flow for every overlay node. */
module Provisioning {
  import opened Arithmetic
  import opened Flows
  import opened NatTable

  const MAX_FLOWS := 20

  /** The least number of sources that gives every overlay node a flow. */
  function Enough(numHops: nat, numDsts: nat): nat
    requires numDsts >= 1 || numHops == 0
  {
    if numHops == 0 then 0 else CeilDiv(numHops, numDsts)
  }

  /** There is such a number, and the loop below ends, exactly when there is a destination
      or nothing to do. */
  lemma EnoughIsLeast(numHops: nat, numDsts: nat)
    ensures (exists n: nat :: n * numDsts >= numHops) <==> numDsts >= 1 || numHops == 0
    ensures numDsts >= 1 || numHops == 0 ==>
      forall n: nat :: n * numDsts >= numHops <==> n >= Enough(numHops, numDsts)
  {
    if numDsts >= 1 {
      forall n: nat ensures n * numDsts >= numHops <==> n >= Enough(numHops, numDsts) {
        CeilDivIsLeast(numHops, numDsts, n);
        MulMonotone(0, n, numDsts);
      }
      assert Enough(numHops, numDsts) * numDsts >= numHops;
    } else if numHops == 0 {
      assert 0 * numDsts >= numHops;
    }
  }

  class Interfaces {
    /** A table of MAX_FLOWS addresses, of which the first `numSrcs` are in use. */
    const srcs: array<Ip>
    var numSrcs: nat
    var numHops: nat
    var numDsts: nat

    ghost predicate Valid()
      reads this
    {
      srcs.Length == MAX_FLOWS && numSrcs <= MAX_FLOWS && numHops <= MAX_FLOWS && numDsts <= MAX_FLOWS
    }

    constructor (numHops: nat, numDsts: nat)
      requires numHops <= MAX_FLOWS && numDsts <= MAX_FLOWS
      ensures Valid() && numSrcs == 0 && this.numHops == numHops && this.numDsts == numDsts && fresh(srcs)
    {
      srcs := new Ip[MAX_FLOWS](_ => "");
      numSrcs, this.numHops, this.numDsts := 0, numHops, numDsts;
    }

    /** Reads the local interface addresses, `found`, into srcs`. */
    method GetLocalInterfaces(found: seq<Ip>)
      requires Valid() && |found| <= MAX_FLOWS
      modifies `numSrcs, srcs
      ensures Valid() && numSrcs == |found| && srcs[..numSrcs] == found
    {
      for i := 0 to |found|
        invariant srcs[..i] == found[..i]
      {
        srcs[i] := found[i];
      }
      numSrcs := |found|;
    }

    /** The loop that adds sources until there is a flow for every overlay node: it adds
        the least number that suffices. */
    method AddSources() returns (created: nat)
      requires numDsts >= 1 || numHops == 0
      modifies `numSrcs
      ensures numSrcs == old(numSrcs) + created && numHops <= numSrcs * numDsts
      ensures numSrcs == if old(numSrcs) >= Enough(numHops, numDsts) then old(numSrcs) else Enough(numHops, numDsts)
    {
      EnoughIsLeast(numHops, numDsts);
      created := 0;
      while numSrcs * numDsts < numHops
        invariant numSrcs == old(numSrcs) + created
        invariant numSrcs <= Enough(numHops, numDsts) || created == 0
        decreases Enough(numHops, numDsts) - numSrcs
      {
        assert numSrcs < Enough(numHops, numDsts);
        created := created + 1;
        numSrcs := numSrcs + 1;
      }
      assert numSrcs >= Enough(numHops, numDsts);
    }

    /** Creates virtual interfaces for the missing sources, then counts again. The sources
        stay within MAX_FLOWS, and if the recount finds the new ones no hop stays idle. */
    method SetupMacheteInfo(found: seq<Ip>, recount: seq<Ip>) returns (created: nat)
      requires Valid() && (numDsts >= 1 || numHops == 0) && |found| <= MAX_FLOWS && |recount| <= MAX_FLOWS
      modifies `numSrcs, srcs
      ensures Valid() && srcs[..numSrcs] == recount && numSrcs == |recount|
      ensures |found| + created <= MAX_FLOWS
      ensures |found| + created
        == if |found| >= Enough(numHops, numDsts) then |found| else Enough(numHops, numDsts)
      ensures numSrcs == |found| + created ==>
        forall h :: 0 <= h < numHops ==> Load(numSrcs * numDsts, numHops, h) >= 1
    {
      GetLocalInterfaces(found);
      created := AddSources();
      AtMostHops(numHops, numDsts, MAX_FLOWS);
      ghost var enough := numSrcs;
      GetLocalInterfaces(recount);
      if numSrcs == enough {
        forall h | 0 <= h < numHops ensures Load(numSrcs * numDsts, numHops, h) >= 1 {
          HopsAreBalanced(numSrcs * numDsts, numHops, h);
        }
      }
    }
  }

  lemma AtMostHops(hops: nat, dsts: nat, most: nat)
    requires (dsts >= 1 || hops == 0) && hops <= most
    ensures Enough(hops, dsts) <= most
  {
    if hops > 0 {
      MulMonotone(1, dsts, most);
      CeilDivIsLeast(hops, dsts, most);
    }
  }
}
