/** Many senders use one overlay node at the same time. Each sends its setup requests in
    order and later its removal requests in the same order; the node serves one connection
    at a time, in any interleaving of the senders. */
module Sessions {
  import opened Wrappers
  import opened NatTable
  import opened Flows
  import opened OverlayNode
  import Seqs

  /** A flow as the node knows it. */
  datatype Relayed = Relayed(src: Ip, dst: Ip, port: string)

  /** The flows one sender relays through the node. */
  type Session = seq<Relayed>

  /** The k-th request of a session: first every setup, then every removal. */
  function Script(s: Session, k: nat): Request
    requires k < 2 * |s|
  {
    if k < |s| then Install(s[k].src, s[k].dst, s[k].port)
    else var f := s[k - |s|]; Uninstall(f.src, f.dst, f.port)
  }

  /** The flows set up and not yet removed after k requests. */
  function Live(s: Session, k: nat): seq<Relayed>
    requires k <= 2 * |s|
  {
    if k <= |s| then s[..k] else s[k - |s|..]
  }

  /** The node's table, and how many requests of each session it has served. */
  datatype State = State(table: Table, progress: seq<nat>)

  predicate Enabled(ss: seq<Session>, st: State, i: nat) {
    |st.progress| == |ss| && i < |ss| && st.progress[i] < 2 * |ss[i]|
  }

  function Step(addr: Ip, ss: seq<Session>, st: State, i: nat): State
    requires Enabled(ss, st, i)
  {
    State(Serve(addr, st.table, Script(ss[i], st.progress[i])), st.progress[i := st.progress[i] + 1])
  }

  function Start(base: Table, ss: seq<Session>): State {
    State(base, seq(|ss|, _ => 0))
  }

  /** The state after the connections of a schedule, which names the session served at
      each turn; `None` when a session is named after its last request. */
  function Run(addr: Ip, ss: seq<Session>, base: Table, schedule: seq<nat>): Option<State> {
    if schedule == [] then Some(Start(base, ss)) else
      match Run(addr, ss, base, schedule[..|schedule| - 1])
      case None => None
      case Some(st) =>
        var i := schedule[|schedule| - 1];
        if Enabled(ss, st, i) then Some(Step(addr, ss, st, i)) else None
  }

  ghost predicate InStep(ss: seq<Session>, progress: seq<nat>) {
    |progress| == |ss| && forall i :: 0 <= i < |ss| ==> progress[i] <= 2 * |ss[i]|
  }

  /** Induction over runs: the last step of a run, if there is one. */
  lemma {:induction false} Progress(addr: Ip, ss: seq<Session>, base: Table, schedule: seq<nat>)
    requires Run(addr, ss, base, schedule).Some?
    ensures InStep(ss, Run(addr, ss, base, schedule).value.progress)
  {
    if schedule != [] {
      Progress(addr, ss, base, schedule[..|schedule| - 1]);
    }
  }

  // ---------- the commands of a set of flows ----------

  function Setup(addr: Ip, fs: seq<Relayed>): (cs: seq<Command>)
    ensures Appends(cs)
  {
    if fs == [] then [] else NodeCommands(addr, fs[0].src, fs[0].dst, fs[0].port) + Setup(addr, fs[1..])
  }

  lemma {:induction false} SetupConcat(addr: Ip, a: seq<Relayed>, b: seq<Relayed>)
    ensures Setup(addr, a + b) == Setup(addr, a) + Setup(addr, b)
  {
    if a == [] {
      Seqs.NilLeft(Setup(addr, b));
      Seqs.NilLeft(b);
    } else {
      Seqs.HeadTail(a, b);
      SetupConcat(addr, a[1..], b);
      Seqs.Assoc(NodeCommands(addr, a[0].src, a[0].dst, a[0].port), Setup(addr, a[1..]), Setup(addr, b));
    }
  }

  lemma SetupOne(addr: Ip, f: Relayed)
    ensures Setup(addr, [f]) == NodeCommands(addr, f.src, f.dst, f.port)
  {
    assert [f][1..] == [];
    Seqs.NilRight(NodeCommands(addr, f.src, f.dst, f.port));
  }

  /** What a node relays of the flows of one sender. */
  function RelayedBy(node: Ip, fs: seq<Flow>, port: string): Session {
    if fs == [] then [] else
      var earlier, f := RelayedBy(node, fs[..|fs| - 1], port), fs[|fs| - 1];
      if f.hop == node then earlier + [Relayed(f.src, f.dst, port)] else earlier
  }

  /** The commands that a sender's flows call for at a node are those of its session there. */
  lemma {:induction false} NodeSetupIsSetup(node: Ip, fs: seq<Flow>, port: string)
    ensures NodeSetup(node, fs, port) == Setup(node, RelayedBy(node, fs, port))
  {
    if fs != [] {
      var earlier, f := fs[..|fs| - 1], fs[|fs| - 1];
      var one := Relayed(f.src, f.dst, port);
      NodeSetupIsSetup(node, earlier, port);
      SetupConcat(node, RelayedBy(node, earlier, port), [one]);
      SetupOne(node, one);
    }
  }

  function Count(addr: Ip, fs: seq<Relayed>, c: Chain, r: Rule): nat {
    multiset(RulesOn(Setup(addr, fs), c))[r]
  }

  /** How often the live flows of all sessions call for rule `r` on chain `c`. */
  function LiveCount(addr: Ip, ss: seq<Session>, progress: seq<nat>, c: Chain, r: Rule): nat
    requires InStep(ss, progress)
  {
    if ss == [] then 0 else
      Count(addr, Live(ss[0], progress[0]), c, r) + LiveCount(addr, ss[1..], progress[1..], c, r)
  }

  function RequestCount(addr: Ip, q: Request, c: Chain, r: Rule): nat {
    multiset(RulesOn(NodeCommands(addr, q.src, q.dst, q.port), c))[r]
  }

  /** When everything is set up and nothing removed, both readings of `Live` agree. */
  lemma LiveMid(s: Session)
    ensures s[..|s|] == s == s[0..]
  {
  }

  /** One request adds, or takes away, one flow of the session's live flows. */
  lemma LiveAfterRequest(addr: Ip, s: Session, k: nat, c: Chain, r: Rule)
    requires k < 2 * |s|
    ensures var one := RequestCount(addr, Script(s, k), c, r);
      && (k < |s| ==> Count(addr, Live(s, k + 1), c, r) == Count(addr, Live(s, k), c, r) + one)
      && (k >= |s| ==> Count(addr, Live(s, k), c, r) == Count(addr, Live(s, k + 1), c, r) + one)
  {
    var f := if k < |s| then s[k] else s[k - |s|];
    SetupOne(addr, f);
    if k < |s| {
      Seqs.Grow(s, k);
      LiveMid(s);
      assert Live(s, k + 1) == Live(s, k) + [f];
      SetupConcat(addr, Live(s, k), [f]);
      RulesOnConcat(Setup(addr, Live(s, k)), Setup(addr, [f]), c);
    } else {
      Seqs.Grow(s, k - |s|);
      LiveMid(s);
      assert Live(s, k) == [f] + Live(s, k + 1);
      SetupConcat(addr, [f], Live(s, k + 1));
      RulesOnConcat(Setup(addr, [f]), Setup(addr, Live(s, k + 1)), c);
    }
  }

  /** How often rule `r` is on chain `c`. */
  function Copies(t: Table, c: Chain, r: Rule): nat {
    multiset(t.On(c))[r]
  }

  lemma ServedRequest(addr: Ip, t: Table, q: Request, c: Chain, r: Rule, was: nat, one: nat) returns (now: nat)
    requires was == Copies(t, c, r) && one == RequestCount(addr, q, c, r)
    ensures now == Copies(Serve(addr, t, q), c, r)
    ensures now == if q.Install? then was + one else if was >= one then was - one else 0
  {
    now := Copies(Serve(addr, t, q), c, r);
    var cs := NodeCommands(addr, q.src, q.dst, q.port);
    if q.Install? {
      AppendsExtend(t, cs, c);
    } else {
      UndoNamesTheSameRules(cs, c);
      DeletesSubtract(t, Undo(cs), c);
    }
  }

  /** Rule `r` is on chain `c` as often as at first, plus once for each live flow that
      calls for it. */
  ghost predicate Accounted(addr: Ip, ss: seq<Session>, base: Table, st: State, c: Chain, r: Rule) {
    && InStep(ss, st.progress)
    && Copies(st.table, c, r) == Copies(base, c, r) + LiveCount(addr, ss, st.progress, c, r)
  }

  /** Safety over every run: whatever the interleaving, each chain holds the rules that
      were there before plus the rules of the live flows, with their multiplicities. No
      assumption on the addresses is needed. */
  lemma {:induction false} TableIsBasePlusLive(addr: Ip, ss: seq<Session>, base: Table, schedule: seq<nat>,
                                               c: Chain, r: Rule)
    requires Run(addr, ss, base, schedule).Some?
    ensures Accounted(addr, ss, base, Run(addr, ss, base, schedule).value, c, r)
  {
    Progress(addr, ss, base, schedule);
    if schedule == [] {
      NothingLive(addr, ss, Start(base, ss).progress, c, r);
    } else {
      var earlier := schedule[..|schedule| - 1];
      var st := Run(addr, ss, base, earlier).value;
      TableIsBasePlusLive(addr, ss, base, earlier, c, r);
      ContentsAfterStep(addr, ss, base, st, schedule[|schedule| - 1], c, r);
    }
  }

  lemma ContentsAfterStep(addr: Ip, ss: seq<Session>, base: Table, st: State, i: nat, c: Chain, r: Rule)
    requires Enabled(ss, st, i) && Accounted(addr, ss, base, st, c, r)
    ensures Accounted(addr, ss, base, Step(addr, ss, st, i), c, r)
  {
    var next := Step(addr, ss, st, i).progress;
    ProgressAfterStep(ss, st.progress, i);
    var before, after, one := LiveAfterStep(addr, ss, st.progress, next, i, c, r);
    var now := ServedRequest(addr, st.table, Script(ss[i], st.progress[i]), c, r, Copies(base, c, r) + before, one);
  }

  lemma ProgressAfterStep(ss: seq<Session>, progress: seq<nat>, i: nat)
    requires InStep(ss, progress) && i < |ss| && progress[i] < 2 * |ss[i]|
    ensures InStep(ss, progress[i := progress[i] + 1])
  {
  }

  /** The live flows before and after a step of session `i`, which adds or takes away `one`. */
  lemma {:induction false} LiveAfterStep(addr: Ip, ss: seq<Session>, progress: seq<nat>, next: seq<nat>, i: nat,
                                         c: Chain, r: Rule) returns (before: nat, after: nat, one: nat)
    requires InStep(ss, progress) && InStep(ss, next) && i < |ss| && progress[i] < 2 * |ss[i]|
    requires next == progress[i := progress[i] + 1]
    ensures before == LiveCount(addr, ss, progress, c, r) && after == LiveCount(addr, ss, next, c, r)
    ensures one == RequestCount(addr, Script(ss[i], progress[i]), c, r)
    ensures if progress[i] < |ss[i]| then after == before + one else before == after + one
  {
    one := RequestCount(addr, Script(ss[i], progress[i]), c, r);
    if i == 0 {
      before, after := LiveAfterFirst(addr, ss, progress, next, one, c, r);
    } else {
      before, after := LiveCount(addr, ss, progress, c, r), LiveCount(addr, ss, next, c, r);
      var tail, tail' := progress[1..], next[1..];
      Seqs.TailOfUpdate(progress, i, progress[i] + 1);
      var before', after', one' := LiveAfterStep(addr, ss[1..], tail, tail', i - 1, c, r);
    }
  }

  lemma LiveAfterFirst(addr: Ip, ss: seq<Session>, progress: seq<nat>, next: seq<nat>, one: nat, c: Chain, r: Rule)
      returns (before: nat, after: nat)
    requires ss != [] && InStep(ss, progress) && InStep(ss, next) && progress[0] < 2 * |ss[0]|
    requires next == progress[0 := progress[0] + 1]
    requires one == RequestCount(addr, Script(ss[0], progress[0]), c, r)
    ensures before == LiveCount(addr, ss, progress, c, r) && after == LiveCount(addr, ss, next, c, r)
    ensures if progress[0] < |ss[0]| then after == before + one else before == after + one
  {
    assert next[1..] == progress[1..];
    var rest := LiveCount(addr, ss[1..], progress[1..], c, r);
    var one';
    before, after, one' := FirstChanges(addr, ss[0], progress[0], c, r, rest);
  }

  lemma FirstChanges(addr: Ip, s: Session, k: nat, c: Chain, r: Rule, rest: nat)
      returns (before: nat, after: nat, one: nat)
    requires k < 2 * |s|
    ensures before == Count(addr, Live(s, k), c, r) + rest && after == Count(addr, Live(s, k + 1), c, r) + rest
    ensures one == RequestCount(addr, Script(s, k), c, r)
    ensures if k < |s| then after == before + one else before == after + one
  {
    before, after := Count(addr, Live(s, k), c, r) + rest, Count(addr, Live(s, k + 1), c, r) + rest;
    one := RequestCount(addr, Script(s, k), c, r);
    LiveAfterRequest(addr, s, k, c, r);
  }

  ghost predicate Idle(ss: seq<Session>, progress: seq<nat>) {
    |progress| == |ss| && forall i :: 0 <= i < |ss| ==> progress[i] == 0 || progress[i] == 2 * |ss[i]|
  }

  lemma {:induction false} NothingLive(addr: Ip, ss: seq<Session>, progress: seq<nat>, c: Chain, r: Rule)
    requires Idle(ss, progress)
    ensures InStep(ss, progress) && LiveCount(addr, ss, progress, c, r) == 0
  {
    if ss != [] {
      NothingLive(addr, ss[1..], progress[1..], c, r);
      assert Live(ss[0], progress[0]) == [];
    }
  }

  // ---------- sessions do not disturb each other ----------

  /** No source of `s` is an address of a flow of `other`. */
  ghost predicate Separate(s: Session, other: Session) {
    forall f, g :: f in s && g in other ==> f.src != g.src && f.src != g.dst
  }

  ghost predicate RuleOf(addr: Ip, f: Relayed, r: Rule) {
    || r == ForwardIn(addr, f.src, f.dst, f.port)
    || r == ForwardOut(addr, f.src, f.dst)
    || r == ForwardIn(addr, f.dst, f.src, f.port)
    || r == ForwardOut(addr, f.dst, f.src)
  }

  ghost function Mine(addr: Ip, s: Session): Rule -> bool {
    (r: Rule) => exists f :: f in s && RuleOf(addr, f, r)
  }

  ghost function Foreign(addr: Ip, ss: seq<Session>): Rule -> bool {
    (r: Rule) => forall i :: 0 <= i < |ss| ==> !Mine(addr, ss[i])(r)
  }

  lemma MineAll(addr: Ip, s: Session, f: Relayed, commands: seq<Command>)
    requires f in s && forall n :: 0 <= n < |commands| ==> RuleOf(addr, f, commands[n].rule)
    ensures forall n :: 0 <= n < |commands| ==> Mine(addr, s)(commands[n].rule)
  {
  }

  lemma ScriptIsMine(addr: Ip, s: Session, k: nat)
    requires k < 2 * |s|
    ensures forall n :: 0 <= n < |Commands(addr, Script(s, k))| ==> Mine(addr, s)(Commands(addr, Script(s, k))[n].rule)
  {
    var f := if k < |s| then s[k] else s[k - |s|];
    var commands := Commands(addr, Script(s, k));
    UndoNamesTheSameRules(NodeCommands(addr, f.src, f.dst, f.port), Prerouting);
    forall n | 0 <= n < |commands| ensures RuleOf(addr, f, commands[n].rule) {
      assert commands[n].rule == NodeCommands(addr, f.src, f.dst, f.port)[n].rule;
    }
    MineAll(addr, s, f, commands);
  }

  lemma RulesApart(addr: Ip, s: Session, other: Session, r: Rule)
    requires Separate(s, other) && Mine(addr, other)(r)
    ensures !Mine(addr, s)(r)
  {
    var g :| g in other && RuleOf(addr, g, r);
    forall f | f in s ensures !RuleOf(addr, f, r) {
    }
  }

  /** The requests of one session alone, up to the k-th. */
  function Solo(addr: Ip, s: Session, k: nat): seq<Command>
    requires k <= 2 * |s|
  {
    if k == 0 then [] else Solo(addr, s, k - 1) + Commands(addr, Script(s, k - 1))
  }

  /** A view that keeps all rules of a session shows what its requests do, and one that
      keeps none of them does not change. */
  lemma ViewOfRequest(addr: Ip, t: Table, s: Session, k: nat, p: Rule -> bool)
    requires k < 2 * |s|
    ensures (forall r :: Mine(addr, s)(r) ==> p(r)) ==>
      KeepTable(Serve(addr, t, Script(s, k)), p) == ExecAll(KeepTable(t, p), Commands(addr, Script(s, k)))
    ensures (forall r :: Mine(addr, s)(r) ==> !p(r)) ==>
      KeepTable(Serve(addr, t, Script(s, k)), p) == KeepTable(t, p)
  {
    var commands := Commands(addr, Script(s, k));
    ScriptIsMine(addr, s, k);
    KeepRun(t, commands, p);
    KeepCommandsAllOrNothing(commands, p);
  }

  /** Seen through the rules of session `i`, the table is what the session's own requests
      alone would have made of it. */
  ghost predicate AsIfAlone(addr: Ip, ss: seq<Session>, base: Table, st: State, i: nat) {
    && i < |ss| && InStep(ss, st.progress)
    && KeepTable(st.table, Mine(addr, ss[i]))
      == ExecAll(KeepTable(base, Mine(addr, ss[i])), Solo(addr, ss[i], st.progress[i]))
  }

  lemma OwnStepAsIfAlone(addr: Ip, ss: seq<Session>, base: Table, st: State, i: nat)
    requires Enabled(ss, st, i) && AsIfAlone(addr, ss, base, st, i)
    ensures AsIfAlone(addr, ss, base, Step(addr, ss, st, i), i)
  {
    ProgressAfterStep(ss, st.progress, i);
    SoloGrows(addr, ss[i], st.progress[i], KeepTable(base, Mine(addr, ss[i])));
    ViewOfRequest(addr, st.table, ss[i], st.progress[i], Mine(addr, ss[i]));
  }

  lemma SoloGrows(addr: Ip, s: Session, k: nat, t: Table)
    requires k < 2 * |s|
    ensures ExecAll(t, Solo(addr, s, k + 1)) == ExecAll(ExecAll(t, Solo(addr, s, k)), Commands(addr, Script(s, k)))
  {
    ExecAllConcat(t, Solo(addr, s, k), Commands(addr, Script(s, k)));
  }

  lemma OtherStepAsIfAlone(addr: Ip, ss: seq<Session>, base: Table, st: State, i: nat, j: nat)
    requires Enabled(ss, st, j) && AsIfAlone(addr, ss, base, st, i) && i != j && Separate(ss[i], ss[j])
    ensures AsIfAlone(addr, ss, base, Step(addr, ss, st, j), i)
  {
    ProgressAfterStep(ss, st.progress, j);
    forall r | Mine(addr, ss[j])(r) ensures !Mine(addr, ss[i])(r) {
      RulesApart(addr, ss[i], ss[j], r);
    }
    ViewOfRequest(addr, st.table, ss[j], st.progress[j], Mine(addr, ss[i]));
  }

  /** Noninterference, in every run. */
  lemma {:induction false} SessionRunsAsIfAlone(addr: Ip, ss: seq<Session>, base: Table, schedule: seq<nat>, i: nat)
    requires Run(addr, ss, base, schedule).Some? && i < |ss|
    requires forall j :: 0 <= j < |ss| && j != i ==> Separate(ss[i], ss[j])
    ensures AsIfAlone(addr, ss, base, Run(addr, ss, base, schedule).value, i)
  {
    if schedule != [] {
      var earlier, j := schedule[..|schedule| - 1], schedule[|schedule| - 1];
      SessionRunsAsIfAlone(addr, ss, base, earlier, i);
      var st := Run(addr, ss, base, earlier).value;
      if j == i {
        OwnStepAsIfAlone(addr, ss, base, st, i);
      } else {
        OtherStepAsIfAlone(addr, ss, base, st, i, j);
      }
    }
  }

  /** Rules that belong to no session are never moved nor lost. */
  lemma {:induction false} ForeignRulesStay(addr: Ip, ss: seq<Session>, base: Table, schedule: seq<nat>)
    requires Run(addr, ss, base, schedule).Some?
    ensures KeepTable(Run(addr, ss, base, schedule).value.table, Foreign(addr, ss))
      == KeepTable(base, Foreign(addr, ss))
  {
    if schedule != [] {
      var earlier, j := schedule[..|schedule| - 1], schedule[|schedule| - 1];
      ForeignRulesStay(addr, ss, base, earlier);
      var st := Run(addr, ss, base, earlier).value;
      ViewOfRequest(addr, st.table, ss[j], st.progress[j], Foreign(addr, ss));
    }
  }

  // ---------- what a session's rules look like ----------

  lemma {:induction false} SoloIsSetup(addr: Ip, s: Session, k: nat)
    requires k <= |s|
    ensures Solo(addr, s, k) == Setup(addr, s[..k])
  {
    if k == 0 {
      assert s[..0] == [];
    } else {
      var f := s[k - 1];
      SoloIsSetup(addr, s, k - 1);
      assert Commands(addr, Script(s, k - 1)) == NodeCommands(addr, f.src, f.dst, f.port);
      OneMore(addr, s, k - 1, f);
    }
  }

  lemma OneMore(addr: Ip, s: Session, k: nat, f: Relayed)
    requires k < |s| && f == s[k]
    ensures Setup(addr, s[..k + 1]) == Setup(addr, s[..k]) + NodeCommands(addr, f.src, f.dst, f.port)
  {
    Seqs.Grow(s, k);
    SetupConcat(addr, s[..k], [f]);
    SetupOne(addr, f);
  }

  lemma {:induction false} SoloIsSetupThenUndo(addr: Ip, s: Session, m: nat)
    requires m <= |s|
    ensures Solo(addr, s, |s| + m) == Setup(addr, s) + Undo(Setup(addr, s[..m]))
  {
    if m == 0 {
      Seqs.Whole(s);
      SoloIsSetup(addr, s, |s|);
      assert s[..0] == [];
      Seqs.NilRight(Setup(addr, s));
    } else {
      SoloIsSetupThenUndo(addr, s, m - 1);
      var earlier, f := Setup(addr, s[..m - 1]), s[m - 1];
      var last := NodeCommands(addr, f.src, f.dst, f.port);
      OneMore(addr, s, m - 1, f);
      UndoConcat(earlier, last);
      assert Commands(addr, Script(s, |s| + m - 1)) == Undo(last);
      Seqs.Assoc(Setup(addr, s), Undo(earlier), Undo(last));
    }
  }

  lemma WholeSession(addr: Ip, s: Session)
    ensures Solo(addr, s, |s|) == Setup(addr, s)
    ensures Solo(addr, s, 2 * |s|) == Setup(addr, s) + Undo(Setup(addr, s))
  {
    Seqs.Whole(s);
    SoloIsSetup(addr, s, |s|);
    SoloIsSetupThenUndo(addr, s, |s|);
  }

  /** Exact contents, in order: if the node held none of a session's rules at first, then
      in every reachable state the session's rules are those of its live flows, in the
      order in which they were set up, whatever the other sessions did meanwhile. */
  lemma SessionRulesInOrder(addr: Ip, ss: seq<Session>, base: Table, schedule: seq<nat>, i: nat, c: Chain)
    requires Run(addr, ss, base, schedule).Some? && i < |ss|
    requires forall j :: 0 <= j < |ss| && j != i ==> Separate(ss[i], ss[j])
    requires forall d: Chain, r :: r in base.On(d) ==> !Mine(addr, ss[i])(r)
    ensures var st := Run(addr, ss, base, schedule).value;
      && InStep(ss, st.progress)
      && Keep(st.table.On(c), Mine(addr, ss[i])) == RulesOn(Setup(addr, Live(ss[i], st.progress[i])), c)
  {
    SessionRunsAsIfAlone(addr, ss, base, schedule, i);
    var st := Run(addr, ss, base, schedule).value;
    var p := Mine(addr, ss[i]);
    NothingKept(base, p);
    SoloOnEmpty(addr, ss[i], st.progress[i]);
    AppendsExtend(EMPTY, Setup(addr, Live(ss[i], st.progress[i])), c);
    assert Keep(st.table.On(c), p) == KeepTable(st.table, p).On(c);
  }

  const EMPTY := Table([], [], [])

  lemma NothingKept(t: Table, p: Rule -> bool)
    requires forall d: Chain, r :: r in t.On(d) ==> !p(r)
    ensures KeepTable(t, p) == EMPTY
  {
    forall d: Chain ensures KeepTable(t, p).On(d) == EMPTY.On(d) {
      KeepAllOrNothing(t.On(d), p);
    }
    TablesAgree(KeepTable(t, p), EMPTY);
  }

  /** On an empty table a session's requests leave just its live flows' rules. */
  lemma SoloOnEmpty(addr: Ip, s: Session, k: nat)
    requires k <= 2 * |s|
    ensures ExecAll(EMPTY, Solo(addr, s, k)) == ExecAll(EMPTY, Setup(addr, Live(s, k)))
  {
    if k <= |s| {
      SoloIsSetup(addr, s, k);
    } else {
      SoloRemoves(addr, s, k, k - |s|);
    }
  }

  lemma SoloRemoves(addr: Ip, s: Session, k: nat, m: nat)
    requires 0 < m <= |s| && k == |s| + m
    ensures ExecAll(EMPTY, Solo(addr, s, k)) == ExecAll(EMPTY, Setup(addr, Live(s, k)))
  {
    SoloIsSetupThenUndo(addr, s, m);
    Seqs.Halves(s, m);
    var gone, left := Setup(addr, s[..m]), Setup(addr, s[m..]);
    var all := BothHalves(addr, s, s[..m], s[m..], gone, left);
    PrefixUndone(all, gone, left);
  }

  /** The two halves of a session's setup, each by its name. */
  lemma BothHalves(addr: Ip, s: Session, a: Session, b: Session, gone: seq<Command>, left: seq<Command>)
      returns (all: seq<Command>)
    requires s == a + b && gone == Setup(addr, a) && left == Setup(addr, b)
    ensures all == Setup(addr, s) && all == gone + left
  {
    all := Setup(addr, s);
    SetupConcat(addr, a, b);
  }

  lemma PrefixUndone(all: seq<Command>, gone: seq<Command>, left: seq<Command>)
    requires Appends(gone) && Appends(left) && all == gone + left
    ensures ExecAll(EMPTY, all + Undo(gone)) == ExecAll(EMPTY, left)
  {
    ExecAllConcat(EMPTY, all, Undo(gone));
    assert forall d: Chain :: EMPTY.On(d) == [];
    UndoPrefix(EMPTY, gone, left);
  }

  /** Once every session has finished, each chain holds the rules it held at first; and
      the very same chains, in order, if none of the sessions' rules was there. */
  lemma FinishedRunRestores(addr: Ip, ss: seq<Session>, base: Table, schedule: seq<nat>)
    requires Run(addr, ss, base, schedule).Some?
    requires Idle(ss, Run(addr, ss, base, schedule).value.progress)
    ensures var t := Run(addr, ss, base, schedule).value.table;
      && (forall c: Chain :: multiset(t.On(c)) == multiset(base.On(c)))
      && ((forall c: Chain, r :: r in base.On(c) ==> Foreign(addr, ss)(r)) ==> t == base)
  {
    var st := Run(addr, ss, base, schedule).value;
    var p := Foreign(addr, ss);
    forall c: Chain ensures multiset(st.table.On(c)) == multiset(base.On(c)) {
      forall r ensures multiset(st.table.On(c))[r] == multiset(base.On(c))[r] {
        TableIsBasePlusLive(addr, ss, base, schedule, c, r);
        NothingLive(addr, ss, st.progress, c, r);
      }
    }
    if forall c: Chain, r :: r in base.On(c) ==> p(r) {
      ForeignRulesStay(addr, ss, base, schedule);
      SameViewSameTable(st.table, base, p);
    }
  }

  lemma SameViewSameTable(t: Table, u: Table, p: Rule -> bool)
    requires forall c: Chain :: multiset(t.On(c)) == multiset(u.On(c))
    requires forall c: Chain, r :: r in u.On(c) ==> p(r)
    requires KeepTable(t, p) == KeepTable(u, p)
    ensures t == u
  {
    forall c: Chain ensures t.On(c) == u.On(c) {
      forall r | r in t.On(c) ensures p(r) {
        assert r in multiset(t.On(c));
        assert r in multiset(u.On(c));
      }
      KeepAllOrNothing(t.On(c), p);
      KeepAllOrNothing(u.On(c), p);
      assert Keep(t.On(c), p) == KeepTable(t, p).On(c);
      assert Keep(u.On(c), p) == KeepTable(u, p).On(c);
    }
    TablesAgree(t, u);
  }
}
