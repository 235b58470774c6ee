/** The kernel's NAT table as `iptables -t nat` sees it: three ordered chains of TCP
    rules. `-A` appends, `-D` deletes the first equal rule, the first match wins. */
module NatTable {
  import opened Wrappers
  import Text
  import Seqs

  type Ip = string

  datatype Target = Dnat(to: Ip) | Snat(to: Ip)

  /** `-p tcp [--dport dport] -s src -d dst -j target`. */
  datatype Rule = Rule(dport: Option<string>, src: Ip, dst: Ip, target: Target)

  datatype Chain = Prerouting | Output | Postrouting

  datatype Table = Table(prerouting: seq<Rule>, output: seq<Rule>, postrouting: seq<Rule>) {
    function On(c: Chain): seq<Rule> {
      match c
      case Prerouting => prerouting
      case Output => output
      case Postrouting => postrouting
    }

    function With(c: Chain, rules: seq<Rule>): Table {
      match c
      case Prerouting => this.(prerouting := rules)
      case Output => this.(output := rules)
      case Postrouting => this.(postrouting := rules)
    }
  }

  lemma TablesAgree(t: Table, u: Table)
    requires forall c: Chain :: t.On(c) == u.On(c)
    ensures t == u
  {
    assert t.On(Prerouting) == u.On(Prerouting);
    assert t.On(Output) == u.On(Output);
    assert t.On(Postrouting) == u.On(Postrouting);
  }

  // ---------- commands ----------

  datatype Command = Append(chain: Chain, rule: Rule) | Delete(chain: Chain, rule: Rule)

  function RemoveFirst(rules: seq<Rule>, r: Rule): seq<Rule> {
    if rules == [] then []
    else if rules[0] == r then rules[1..]
    else [rules[0]] + RemoveFirst(rules[1..], r)
  }

  function Exec(t: Table, c: Command): Table {
    match c
    case Append(chain, rule) => t.With(chain, t.On(chain) + [rule])
    case Delete(chain, rule) => t.With(chain, RemoveFirst(t.On(chain), rule))
  }

  function ExecAll(t: Table, cs: seq<Command>): Table
    decreases cs
  {
    if cs == [] then t else ExecAll(Exec(t, cs[0]), cs[1..])
  }

  predicate Appends(cs: seq<Command>) {
    forall i :: 0 <= i < |cs| ==> cs[i].Append?
  }

  /** The deletions that answer a list of appends, in the same order. */
  function Undo(cs: seq<Command>): (ds: seq<Command>)
    ensures |ds| == |cs|
  {
    if cs == [] then [] else [Delete(cs[0].chain, cs[0].rule)] + Undo(cs[1..])
  }

  /** The rules a list of commands names on one chain, in order. */
  function RulesOn(cs: seq<Command>, chain: Chain): seq<Rule> {
    if cs == [] then []
    else if cs[0].chain == chain then [cs[0].rule] + RulesOn(cs[1..], chain)
    else RulesOn(cs[1..], chain)
  }

  lemma {:induction false} ExecAllConcat(t: Table, a: seq<Command>, b: seq<Command>)
    ensures ExecAll(t, a + b) == ExecAll(ExecAll(t, a), b)
    decreases a
  {
    if a == [] {
      Seqs.NilLeft(b);
    } else {
      Seqs.HeadTail(a, b);
      ExecAllConcat(Exec(t, a[0]), a[1..], b);
    }
  }

  lemma {:induction false} UndoConcat(a: seq<Command>, b: seq<Command>)
    ensures Undo(a + b) == Undo(a) + Undo(b)
  {
    if a == [] {
      Seqs.NilLeft(b);
    } else {
      Seqs.HeadTail(a, b);
      UndoConcat(a[1..], b);
      Seqs.Assoc([Delete(a[0].chain, a[0].rule)], Undo(a[1..]), Undo(b));
    }
  }

  lemma {:induction false} RulesOnConcat(a: seq<Command>, b: seq<Command>, chain: Chain)
    ensures RulesOn(a + b, chain) == RulesOn(a, chain) + RulesOn(b, chain)
  {
    if a == [] {
      Seqs.NilLeft(b);
    } else {
      Seqs.HeadTail(a, b);
      RulesOnConcat(a[1..], b, chain);
      Seqs.Assoc([a[0].rule], RulesOn(a[1..], chain), RulesOn(b, chain));
    }
  }

  // ---------- what appending and deleting do to one chain ----------

  lemma {:induction false} AppendsExtend(t: Table, cs: seq<Command>, chain: Chain)
    requires Appends(cs)
    ensures ExecAll(t, cs).On(chain) == t.On(chain) + RulesOn(cs, chain)
    decreases cs
  {
    if cs == [] {
      Seqs.NilRight(t.On(chain));
    } else {
      AppendsExtend(Exec(t, cs[0]), cs[1..], chain);
      if cs[0].chain == chain {
        Seqs.Assoc(t.On(chain), [cs[0].rule], RulesOn(cs[1..], chain));
      }
    }
  }

  lemma {:induction false} RemoveFirstAfter(base: seq<Rule>, r: Rule, rest: seq<Rule>)
    requires r !in base
    ensures RemoveFirst(base + ([r] + rest), r) == base + rest
  {
    if base == [] {
      Seqs.NilLeft([r] + rest);
      Seqs.NilLeft(rest);
      Seqs.Cons(r, rest);
    } else {
      Seqs.HeadTail(base, [r] + rest);
      RemoveFirstAfter(base[1..], r, rest);
      Seqs.Assoc([base[0]], base[1..], rest);
      Seqs.Uncons(base);
    }
  }

  lemma {:induction false} RemoveFirstCounts(rules: seq<Rule>, r: Rule)
    ensures multiset(RemoveFirst(rules, r)) == multiset(rules) - multiset{r}
  {
    if rules != [] {
      Seqs.Uncons(rules);
      if rules[0] != r {
        RemoveFirstCounts(rules[1..], r);
      }
    }
  }

  // ---------- undoing a list of appends ----------

  /** Deleting, in the order of the appends, the first part of what was appended leaves
      the rest as if it alone had been appended, whenever none of the deleted rules was
      there before. */
  lemma {:induction false} UndoPrefix(t: Table, a: seq<Command>, b: seq<Command>)
    requires Appends(a) && Appends(b)
    requires forall i :: 0 <= i < |a| ==> a[i].rule !in t.On(a[i].chain)
    ensures ExecAll(ExecAll(t, a + b), Undo(a)) == ExecAll(t, b)
    decreases a
  {
    if a == [] {
      Seqs.NilLeft(b);
    } else {
      Seqs.HeadTail(a, b);
      FirstDeleteCancelsFirstAppend(t, a + b);
      UndoPrefix(t, a[1..], b);
      Seqs.Cons(Delete(a[0].chain, a[0].rule), Undo(a[1..]));
    }
  }

  /** Deleting them all gives back the very same chains. */
  lemma UndoRestoresChains(t: Table, cs: seq<Command>)
    requires Appends(cs)
    requires forall i :: 0 <= i < |cs| ==> cs[i].rule !in t.On(cs[i].chain)
    ensures ExecAll(ExecAll(t, cs), Undo(cs)) == t
  {
    UndoPrefix(t, cs, []);
    Seqs.NilRight(cs);
  }

  /** Every copy of the rule stands behind all other rules. */
  ghost predicate OnlyAtEnd(rules: seq<Rule>, r: Rule) {
    forall i, j :: 0 <= i < j < |rules| && rules[i] == r ==> rules[j] == r
  }

  lemma {:induction false} ShiftedIsConstant(rules: seq<Rule>, r: Rule, k: nat)
    requires k < |rules| && rules[0] == r && rules[1..] + [r] == rules
    ensures rules[k] == r
  {
    if k > 0 {
      ShiftedIsConstant(rules, r, k - 1);
      assert (rules[1..] + [r])[k - 1] == rules[k];
    }
  }

  lemma {:induction false} RemoveAppendedIff(rules: seq<Rule>, r: Rule)
    ensures RemoveFirst(rules + [r], r) == rules <==> OnlyAtEnd(rules, r)
  {
    if rules == [] {
      Seqs.NilLeft([r]);
    } else {
      Seqs.HeadTail(rules, [r]);
      if rules[0] == r {
        if rules[1..] + [r] == rules {
          forall k | 0 <= k < |rules| ensures rules[k] == r {
            ShiftedIsConstant(rules, r, k);
          }
        }
      } else {
        var rest := RemoveFirst(rules[1..] + [r], r);
        RemoveAppendedIff(rules[1..], r);
        Seqs.Uncons(rules);
        Seqs.Cons(rules[0], rest);
        assert forall i :: 0 < i < |rules| ==> rules[i] == rules[1..][i - 1];
      }
    }
  }

  /** The side condition, exactly, for one command: appending a rule and deleting it gives
      the table back if and only if every older copy of it stands at the end of its chain;
      otherwise the older copy is deleted and the chain comes back in another order. */
  lemma UndoOneIff(t: Table, chain: Chain, r: Rule)
    ensures Exec(Exec(t, Append(chain, r)), Delete(chain, r)) == t <==> OnlyAtEnd(t.On(chain), r)
  {
    var u := Exec(Exec(t, Append(chain, r)), Delete(chain, r));
    RemoveAppendedIff(t.On(chain), r);
    assert u.On(chain) == RemoveFirst(t.On(chain) + [r], r);
    if u.On(chain) == t.On(chain) {
      TablesAgree(u, t);
    }
  }

  lemma FirstDeleteCancelsFirstAppend(t: Table, cs: seq<Command>)
    requires cs != [] && Appends(cs)
    requires cs[0].rule !in t.On(cs[0].chain)
    ensures Exec(ExecAll(t, cs), Delete(cs[0].chain, cs[0].rule)) == ExecAll(t, cs[1..])
  {
    forall c: Chain
      ensures c != cs[0].chain ==> ExecAll(t, cs).On(c) == ExecAll(t, cs[1..]).On(c)
      ensures c == cs[0].chain ==> RemoveFirst(ExecAll(t, cs).On(c), cs[0].rule) == ExecAll(t, cs[1..]).On(c)
    {
      FirstAppendOnChain(t, cs, c);
    }
    DeleteLeaves(ExecAll(t, cs), cs[0].chain, cs[0].rule, ExecAll(t, cs[1..]));
  }

  lemma FirstAppendOnChain(t: Table, cs: seq<Command>, c: Chain)
    requires cs != [] && Appends(cs)
    requires cs[0].rule !in t.On(cs[0].chain)
    ensures c != cs[0].chain ==> ExecAll(t, cs).On(c) == ExecAll(t, cs[1..]).On(c)
    ensures c == cs[0].chain ==> RemoveFirst(ExecAll(t, cs).On(c), cs[0].rule) == ExecAll(t, cs[1..]).On(c)
  {
    AppendsExtend(t, cs, c);
    AppendsExtend(t, cs[1..], c);
    if c == cs[0].chain {
      RemoveFirstAfter(t.On(c), cs[0].rule, RulesOn(cs[1..], c));
    }
  }

  lemma DeleteLeaves(t: Table, chain: Chain, r: Rule, u: Table)
    requires forall c: Chain :: c != chain ==> t.On(c) == u.On(c)
    requires RemoveFirst(t.On(chain), r) == u.On(chain)
    ensures Exec(t, Delete(chain, r)) == u
  {
    forall c: Chain ensures Exec(t, Delete(chain, r)).On(c) == u.On(c) {
    }
    TablesAgree(Exec(t, Delete(chain, r)), u);
  }

  /** Without any assumption on the earlier contents, the chains are restored as multisets. */
  lemma {:induction false} UndoRestoresRules(t: Table, cs: seq<Command>, chain: Chain)
    requires Appends(cs)
    ensures multiset(ExecAll(ExecAll(t, cs), Undo(cs)).On(chain)) == multiset(t.On(chain))
  {
    AppendsExtend(t, cs, chain);
    UndoNamesTheSameRules(cs, chain);
    DeletesSubtract(ExecAll(t, cs), Undo(cs), chain);
  }

  lemma {:induction false} DeletesSubtract(t: Table, ds: seq<Command>, chain: Chain)
    requires forall i :: 0 <= i < |ds| ==> ds[i].Delete?
    ensures multiset(ExecAll(t, ds).On(chain)) == multiset(t.On(chain)) - multiset(RulesOn(ds, chain))
    decreases ds
  {
    if ds != [] {
      RemoveFirstCounts(t.On(ds[0].chain), ds[0].rule);
      DeletesSubtract(Exec(t, ds[0]), ds[1..], chain);
    }
  }

  lemma {:induction false} UndoNamesTheSameRules(cs: seq<Command>, chain: Chain)
    ensures RulesOn(Undo(cs), chain) == RulesOn(cs, chain)
    ensures forall i :: 0 <= i < |cs| ==> Undo(cs)[i] == Delete(cs[i].chain, cs[i].rule)
  {
    if cs != [] {
      UndoNamesTheSameRules(cs[1..], chain);
      Seqs.Cons(Delete(cs[0].chain, cs[0].rule), Undo(cs[1..]));
      forall i | 0 <= i < |cs| ensures Undo(cs)[i] == Delete(cs[i].chain, cs[i].rule) {
        if i > 0 {
          assert Undo(cs)[i] == Undo(cs[1..])[i - 1];
        }
      }
    }
  }

  // ---------- independence of unrelated rules ----------

  /** The rules that satisfy `p`, in their order. */
  ghost function Keep(rules: seq<Rule>, p: Rule -> bool): seq<Rule> {
    if rules == [] then []
    else if p(rules[0]) then [rules[0]] + Keep(rules[1..], p)
    else Keep(rules[1..], p)
  }

  ghost function KeepTable(t: Table, p: Rule -> bool): Table {
    Table(Keep(t.prerouting, p), Keep(t.output, p), Keep(t.postrouting, p))
  }

  ghost function KeepCommands(cs: seq<Command>, p: Rule -> bool): seq<Command> {
    if cs == [] then []
    else if p(cs[0].rule) then [cs[0]] + KeepCommands(cs[1..], p)
    else KeepCommands(cs[1..], p)
  }

  lemma {:induction false} KeepConcat(a: seq<Rule>, b: seq<Rule>, p: Rule -> bool)
    ensures Keep(a + b, p) == Keep(a, p) + Keep(b, p)
  {
    if a == [] {
      Seqs.NilLeft(b);
    } else {
      Seqs.HeadTail(a, b);
      KeepConcat(a[1..], b, p);
      Seqs.Assoc([a[0]], Keep(a[1..], p), Keep(b, p));
    }
  }

  lemma {:induction false} KeepRemoveFirst(rules: seq<Rule>, r: Rule, p: Rule -> bool)
    ensures Keep(RemoveFirst(rules, r), p) == if p(r) then RemoveFirst(Keep(rules, p), r) else Keep(rules, p)
  {
    if rules != [] {
      Seqs.Cons(rules[0], Keep(rules[1..], p));
      if rules[0] != r {
        KeepRemoveFirst(rules[1..], r, p);
        Seqs.Cons(rules[0], RemoveFirst(rules[1..], r));
      }
    }
  }

  lemma {:induction false} KeepAllOrNothing(rules: seq<Rule>, p: Rule -> bool)
    ensures (forall r :: r in rules ==> p(r)) ==> Keep(rules, p) == rules
    ensures (forall r :: r in rules ==> !p(r)) ==> Keep(rules, p) == []
    ensures forall r :: r in Keep(rules, p) ==> r in rules && p(r)
  {
    if rules != [] {
      KeepAllOrNothing(rules[1..], p);
    }
  }

  lemma KeepExec(t: Table, c: Command, p: Rule -> bool)
    ensures KeepTable(Exec(t, c), p) == if p(c.rule) then Exec(KeepTable(t, p), c) else KeepTable(t, p)
  {
    var rules := t.On(c.chain);
    if c.Append? {
      KeepConcat(rules, [c.rule], p);
      Seqs.NilRight(Keep(rules, p));
      assert Keep([c.rule], p) == if p(c.rule) then [c.rule] else [];
    } else {
      KeepRemoveFirst(rules, c.rule, p);
    }
    assert KeepTable(t, p).On(c.chain) == Keep(rules, p);
  }

  /** Seen through the rules that satisfy `p`, a run of commands is the run of just the
      commands about such rules: the other commands neither move nor drop any of them. */
  lemma {:induction false} KeepRun(t: Table, cs: seq<Command>, p: Rule -> bool)
    ensures KeepTable(ExecAll(t, cs), p) == ExecAll(KeepTable(t, p), KeepCommands(cs, p))
    decreases cs
  {
    if cs != [] {
      var t' := Exec(t, cs[0]);
      var rest := KeepCommands(cs[1..], p);
      KeepExec(t, cs[0], p);
      KeepRun(t', cs[1..], p);
      if p(cs[0].rule) {
        Seqs.Cons(cs[0], rest);
      } else {
        assert KeepCommands(cs, p) == rest;
      }
    }
  }

  lemma {:induction false} KeepCommandsAllOrNothing(cs: seq<Command>, p: Rule -> bool)
    ensures (forall i :: 0 <= i < |cs| ==> p(cs[i].rule)) ==> KeepCommands(cs, p) == cs
    ensures (forall i :: 0 <= i < |cs| ==> !p(cs[i].rule)) ==> KeepCommands(cs, p) == []
  {
    if cs != [] {
      KeepCommandsAllOrNothing(cs[1..], p);
      assert forall i :: 0 <= i < |cs[1..]| ==> cs[1..][i] == cs[i + 1];
    }
  }

  // ---------- packets ----------

  /** A TCP segment: where it comes from, where it goes, and the destination port. */
  datatype Packet = Packet(src: Ip, dst: Ip, dport: nat)

  predicate Matches(r: Rule, p: Packet) {
    && r.src == p.src
    && r.dst == p.dst
    && (r.dport == None || r.dport == Some(Text.Decimal(p.dport)))
  }

  function FirstMatch(rules: seq<Rule>, p: Packet): Option<Rule> {
    if rules == [] then None
    else if Matches(rules[0], p) then Some(rules[0])
    else FirstMatch(rules[1..], p)
  }

  function Rewrite(p: Packet, target: Target): Packet {
    match target
    case Dnat(to) => p.(dst := to)
    case Snat(to) => p.(src := to)
  }

  /** What one chain makes of a packet. */
  function Traverse(rules: seq<Rule>, p: Packet): Packet {
    match FirstMatch(rules, p)
    case None => p
    case Some(r) => Rewrite(p, r.target)
  }

  ghost predicate NoMatch(rules: seq<Rule>, p: Packet) {
    forall r :: r in rules ==> !Matches(r, p)
  }

  lemma {:induction false} FirstMatchSkips(base: seq<Rule>, rules: seq<Rule>, p: Packet)
    requires NoMatch(base, p)
    ensures FirstMatch(base + rules, p) == FirstMatch(rules, p)
  {
    if base == [] {
      Seqs.NilLeft(rules);
    } else {
      Seqs.HeadTail(base, rules);
      assert base[0] in base;
      FirstMatchSkips(base[1..], rules, p);
    }
  }

  lemma {:induction false} FirstMatchIsAMatch(rules: seq<Rule>, p: Packet)
    ensures NoMatch(rules, p) ==> FirstMatch(rules, p) == None
    ensures !NoMatch(rules, p) ==> FirstMatch(rules, p).Some?
    ensures FirstMatch(rules, p).Some? ==>
      FirstMatch(rules, p).value in rules && Matches(FirstMatch(rules, p).value, p)
  {
    if rules != [] {
      FirstMatchIsAMatch(rules[1..], p);
    }
  }
}
