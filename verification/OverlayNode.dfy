/** The overlay node: it turns each rule message into four `iptables` commands. */
module OverlayNode {
  import opened Wrappers
  import opened Text
  import opened NatTable
  import opened Flows
  import opened WireFormats
  import Seqs

  /** What a rule message asks for. */
  datatype Request = Install(src: Ip, dst: Ip, port: string) | Uninstall(src: Ip, dst: Ip, port: string)

  function Parse(spec: string): Request
    requires |Tokens(spec, '-')| >= 4
  {
    var t := Tokens(spec, '-');
    if t[0] == "A" then Install(t[1], t[2], t[3]) else Uninstall(t[1], t[2], t[3])
  }

  /** The `iptables` commands that answer a request on the node at `addr`. */
  function Commands(addr: Ip, r: Request): seq<Command> {
    match r
    case Install(src, dst, port) => NodeCommands(addr, src, dst, port)
    case Uninstall(src, dst, port) => Undo(NodeCommands(addr, src, dst, port))
  }

  function Serve(addr: Ip, t: Table, r: Request): Table {
    ExecAll(t, Commands(addr, r))
  }

  function ServeAll(addr: Ip, t: Table, rs: seq<Request>): Table {
    if rs == [] then t else Serve(addr, ServeAll(addr, t, rs[..|rs| - 1]), rs[|rs| - 1])
  }

  /** A sender's message is understood as the request it was built from. */
  lemma SpecMeansRequest(src: Ip, dst: Ip, port: nat, rule: int)
    requires IsField(src, '-') && IsField(dst, '-')
    ensures |Tokens(ForwardSpec(src, dst, port, rule), '-')| == 4
    ensures Parse(ForwardSpec(src, dst, port, rule))
      == if rule == 1 then Install(src, dst, Decimal(port)) else Uninstall(src, dst, Decimal(port))
  {
    ForwardSpecRoundTrip(src, dst, port, rule);
  }

  lemma ExecOne(t: Table, c: Command)
    ensures ExecAll(t, [c]) == Exec(t, c)
  {
    assert [c][1..] == [];
  }

  lemma ExecTwo(t: Table, a: Command, b: Command)
    ensures ExecAll(t, [a, b]) == Exec(Exec(t, a), b)
  {
    assert [a, b] == [a] + [b];
    ExecAllConcat(t, [a], [b]);
    ExecOne(t, a);
    ExecOne(Exec(t, a), b);
  }

  lemma ExecFour(t: Table, a: Command, b: Command, c: Command, d: Command)
    ensures ExecAll(t, [a, b, c, d]) == Exec(Exec(Exec(Exec(t, a), b), c), d)
  {
    assert [a, b, c, d] == [a, b] + [c, d];
    ExecAllConcat(t, [a, b], [c, d]);
    ExecTwo(t, a, b);
    ExecTwo(Exec(Exec(t, a), b), c, d);
  }

  lemma UndoFour(a: Command, b: Command, c: Command, d: Command)
    ensures Undo([a, b, c, d]) == [ Delete(a.chain, a.rule), Delete(b.chain, b.rule),
                                    Delete(c.chain, c.rule), Delete(d.chain, d.rule) ]
  {
    UndoNamesTheSameRules([a, b, c, d], Prerouting);
  }

  class Node {
    const addr: Ip
    /** The host's NAT table. */
    var table: Table

    constructor (addr: Ip, table: Table)
      ensures this.addr == addr && this.table == table
    {
      this.addr, this.table := addr, table;
    }

    method ForwardPaths(src: Ip, dst: Ip, port: string)
      modifies this
      ensures table == ExecAll(old(table), NodeCommands(addr, src, dst, port))
      ensures table == Table(
        old(table).prerouting + [Rule(Some(port), src, addr, Dnat(dst))] + [Rule(Some(port), dst, addr, Dnat(src))],
        old(table).output,
        old(table).postrouting + [Rule(None, src, dst, Snat(addr))] + [Rule(None, dst, src, Snat(addr))])
    {
      ghost var before := table;
      table := Exec(table, Append(Prerouting, Rule(Some(port), src, addr, Dnat(dst))));
      table := Exec(table, Append(Postrouting, Rule(None, src, dst, Snat(addr))));
      table := Exec(table, Append(Prerouting, Rule(Some(port), dst, addr, Dnat(src))));
      table := Exec(table, Append(Postrouting, Rule(None, dst, src, Snat(addr))));
      ghost var cs := NodeCommands(addr, src, dst, port);
      ExecFour(before, cs[0], cs[1], cs[2], cs[3]);
    }

    method RemoveRules(src: Ip, dst: Ip, port: string)
      modifies this
      ensures table == ExecAll(old(table), Undo(NodeCommands(addr, src, dst, port)))
    {
      ghost var before := table;
      table := Exec(table, Delete(Prerouting, Rule(Some(port), src, addr, Dnat(dst))));
      table := Exec(table, Delete(Postrouting, Rule(None, src, dst, Snat(addr))));
      table := Exec(table, Delete(Prerouting, Rule(Some(port), dst, addr, Dnat(src))));
      table := Exec(table, Delete(Postrouting, Rule(None, dst, src, Snat(addr))));
      ghost var cs := NodeCommands(addr, src, dst, port);
      UndoFour(cs[0], cs[1], cs[2], cs[3]);
      ghost var ds := Undo(cs);
      ExecFour(before, ds[0], ds[1], ds[2], ds[3]);
    }

    /** One message; the type letter is sent back to the sender. */
    method ReceiveForwardingRule(spec: string) returns (reply: string)
      requires |Tokens(spec, '-')| >= 4
      modifies this
      ensures table == Serve(addr, old(table), Parse(spec))
      ensures reply == Tokens(spec, '-')[0]
    {
      var strtok := new Tokenizer(spec, '-');
      var kind := strtok.Next();
      var src := strtok.Next();
      var dst := strtok.Next();
      var port := strtok.Next();
      reply := kind.value;
      if kind.value == "A" {
        ForwardPaths(src.value, dst.value, port.value);
      } else {
        RemoveRules(src.value, dst.value, port.value);
      }
    }

    /** The accept loop over the connections made so far, one rule message each. */
    method StartOverlay(specs: seq<string>)
      requires forall i :: 0 <= i < |specs| ==> |Tokens(specs[i], '-')| >= 4
      modifies this
      ensures table == ServeAll(addr, old(table), seq(|specs|, i requires 0 <= i < |specs| => Parse(specs[i])))
    {
      ghost var requests := seq(|specs|, i requires 0 <= i < |specs| => Parse(specs[i]));
      assert requests[..0] == [];
      for k := 0 to |specs|
        invariant table == ServeAll(addr, old(table), requests[..k])
      {
        var _ := ReceiveForwardingRule(specs[k]);
        Seqs.Grow(requests, k);
        Seqs.Snoc(requests[..k], requests[k]);
      }
      Seqs.Whole(requests);
    }
  }

  /** The seven fields of a Darshana rule, as the overlay node cuts them. */
  method ReceiveDarshanaRule(spec: string) returns (fields: seq<string>)
    requires |Tokens(spec, '-')| >= 7
    ensures fields == Tokens(spec, '-')[..7]
  {
    var strtok := new Tokenizer(spec, '-');
    fields := [];
    for k := 0 to 7
      invariant fresh(strtok) && strtok.Valid()
      invariant fields == Tokens(spec, '-')[..k] && strtok.Rest() == Tokens(spec, '-')[k..]
    {
      var token := strtok.Next();
      fields := fields + [token.value];
    }
  }
}
