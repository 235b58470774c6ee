/** The packets of one sender at a node that serves many: they are relayed to their own
    destinations whatever the other senders are doing meanwhile. */
module SharedNode {
  import opened Wrappers
  import opened NatTable
  import opened Flows
  import opened Sessions
  import opened Handshake
  import Forwarding
  import Seqs
  import Text

  // ---------- whose rules are in the table ----------

  /** Every rule was there before or belongs to a session. */
  ghost predicate Known(addr: Ip, ss: seq<Session>, base: Table, t: Table) {
    forall c: Chain, r :: r in t.On(c) ==> r in base.On(c) || !Foreign(addr, ss)(r)
  }

  lemma RemoveFirstKeepsOut(rules: seq<Rule>, r: Rule, x: Rule)
    requires x in RemoveFirst(rules, r)
    ensures x in rules
  {
    RemoveFirstCounts(rules, r);
    assert x in multiset(RemoveFirst(rules, r));
    assert x in multiset(rules);
  }

  lemma ExecKeepsKnown(addr: Ip, ss: seq<Session>, base: Table, t: Table, command: Command)
    requires Known(addr, ss, base, t) && !Foreign(addr, ss)(command.rule)
    ensures Known(addr, ss, base, Exec(t, command))
  {
    forall c: Chain, r | r in Exec(t, command).On(c) ensures r in base.On(c) || !Foreign(addr, ss)(r) {
      if command.Delete? && c == command.chain {
        RemoveFirstKeepsOut(t.On(c), command.rule, r);
      }
    }
  }

  lemma {:induction false} AlwaysKnown(addr: Ip, ss: seq<Session>, base: Table, moves: seq<Move>)
    requires Reach(addr, ss, base, moves).Some?
    ensures Known(addr, ss, base, Reach(addr, ss, base, moves).value.table)
  {
    if moves != [] {
      var earlier, m := moves[..|moves| - 1], moves[|moves| - 1];
      AlwaysKnown(addr, ss, base, earlier);
      LeftIsAlwaysOf(addr, ss, base, earlier);
      var w := Reach(addr, ss, base, earlier).value;
      if m == Work && w.server.Executing? && w.server.left != [] {
        assert Mine(addr, ss[w.server.i])(w.server.left[0].rule);
        ExecKeepsKnown(addr, ss, base, w.table, w.server.left[0]);
      }
    }
  }

  // ---------- only the session's own rules matter to its packets ----------

  lemma {:induction false} FirstMatchOfKept(rules: seq<Rule>, p: Rule -> bool, packet: Packet)
    requires forall r :: r in rules && Matches(r, packet) ==> p(r)
    ensures FirstMatch(Keep(rules, p), packet) == FirstMatch(rules, packet)
  {
    if rules != [] {
      FirstMatchOfKept(rules[1..], p, packet);
      if p(rules[0]) {
        Seqs.Cons(rules[0], Keep(rules[1..], p));
      }
    }
  }

  lemma MatchesOnlyMine(addr: Ip, ss: seq<Session>, base: Table, t: Table, i: nat, f: Relayed, c: Chain, packet: Packet)
    requires Known(addr, ss, base, t) && i < |ss| && f in ss[i]
    requires forall j :: 0 <= j < |ss| && j != i ==> Separate(ss[i], ss[j])
    requires packet.src == f.src && NoMatch(base.On(c), packet)
    ensures forall r :: r in t.On(c) && Matches(r, packet) ==> Mine(addr, ss[i])(r)
  {
    forall r | r in t.On(c) && Matches(r, packet) ensures Mine(addr, ss[i])(r) {
      assert !Foreign(addr, ss)(r);
      var j :| 0 <= j < |ss| && Mine(addr, ss[j])(r);
      if j != i {
        var g :| g in ss[j] && RuleOf(addr, g, r);
        assert f.src != g.src && f.src != g.dst;
      }
    }
  }

  // ---------- what the session's own rules do ----------

  /** The flow is the first of its source and port, and its source is no destination. */
  ghost predicate FirstOfItsSource(live: seq<Relayed>, n: nat)
    requires n < |live|
  {
    && (forall m :: 0 <= m < n ==> live[m].src != live[n].src || live[m].port != live[n].port)
    && (forall m :: 0 <= m < |live| ==> live[m].dst != live[n].src)
  }

  lemma {:induction false} OwnRuleCaptures(addr: Ip, live: seq<Relayed>, n: nat, port: nat)
    requires n < |live| && FirstOfItsSource(live, n) && live[n].port == Text.Decimal(port)
    ensures FirstMatch(RulesOn(Setup(addr, live), Prerouting), Packet(live[n].src, addr, port))
      == Some(ForwardIn(addr, live[n].src, live[n].dst, live[n].port))
  {
    var f, p := live[0], Packet(live[n].src, addr, port);
    var head, tail := NodeCommands(addr, f.src, f.dst, f.port), Setup(addr, live[1..]);
    RulesOnConcat(head, tail, Prerouting);
    Forwarding.FirstMatchConcat(RulesOn(head, Prerouting), RulesOn(tail, Prerouting), p);
    Forwarding.OneFlowCaptures(addr, f.src, f.dst, f.port, p);
    if n > 0 {
      OwnRuleCaptures(addr, live[1..], n - 1, port);
    }
  }

  lemma {:induction false} OwnRulesMasquerade(addr: Ip, live: seq<Relayed>)
    ensures forall r :: r in RulesOn(Setup(addr, live), Postrouting) ==> r.target == Snat(addr)
    ensures forall f :: f in live ==> ForwardOut(addr, f.src, f.dst) in RulesOn(Setup(addr, live), Postrouting)
  {
    if live != [] {
      var f := live[0];
      OwnRulesMasquerade(addr, live[1..]);
      RulesOnConcat(NodeCommands(addr, f.src, f.dst, f.port), Setup(addr, live[1..]), Postrouting);
      RulesOfOneFlow(addr, f.src, f.dst, f.port);
    }
  }

  // ---------- delivery ----------

  /** In every reachable world in which sender i is outside a call, a packet of one of its
      live flows leaves the node for the flow's own destination, whatever the other senders
      have under way and however far the node is with their requests. */
  lemma DeliveredMeanwhile(addr: Ip, ss: seq<Session>, base: Table, moves: seq<Move>, i: nat, n: nat, port: nat)
    requires Reach(addr, ss, base, moves).Some? && i < |ss|
    requires forall j :: 0 <= j < |ss| && j != i ==> Separate(ss[i], ss[j])
    requires forall d: Chain, r :: r in base.On(d) ==> !Mine(addr, ss[i])(r)
    requires var w := Reach(addr, ss, base, moves).value;
      && |w.clients| == |ss| && w.clients[i].phase == Outside && w.clients[i].k <= 2 * |ss[i]|
      && var live := Live(ss[i], w.clients[i].k);
        && n < |live| && live[n].port == Text.Decimal(port) && FirstOfItsSource(live, n)
        && NoMatch(base.prerouting, Packet(live[n].src, addr, port))
        && NoMatch(base.postrouting, Packet(live[n].src, live[n].dst, port))
    ensures var w := Reach(addr, ss, base, moves).value;
      var f := Live(ss[i], w.clients[i].k)[n];
      Forwarding.Relay(w.table, Packet(f.src, addr, port)) == Packet(addr, f.dst, port)
  {
    var w := Reach(addr, ss, base, moves).value;
    var live := Live(ss[i], w.clients[i].k);
    var f, mine := live[n], Mine(addr, ss[i]);
    var sent, relayed := Packet(f.src, addr, port), Packet(f.src, f.dst, port);
    assert f in ss[i];
    AlwaysKnown(addr, ss, base, moves);
    MatchesOnlyMine(addr, ss, base, w.table, i, f, Prerouting, sent);
    MatchesOnlyMine(addr, ss, base, w.table, i, f, Postrouting, relayed);
    ReturnedCallIsInPlace(addr, ss, base, moves, i, Prerouting);
    ReturnedCallIsInPlace(addr, ss, base, moves, i, Postrouting);
    FirstMatchOfKept(w.table.prerouting, mine, sent);
    FirstMatchOfKept(w.table.postrouting, mine, relayed);
    OwnRuleCaptures(addr, live, n, port);
    OwnRulesMasquerade(addr, live);
    FirstMatchIsAMatch(RulesOn(Setup(addr, live), Postrouting), relayed);
    assert Matches(ForwardOut(addr, f.src, f.dst), relayed);
  }
}
