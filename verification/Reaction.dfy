/** The reaction to alerts as a function of the run: what every sequence of reads from the
    alert socket makes of the sender's state. */
module Reaction {
  import opened Wrappers
  import opened NatTable
  import opened Flows
  import opened SenderSpec
  import opened MonitoredPaths
  import opened AlertsReceiver
  import opened Text
  import Seqs

  type Ip = NatTable.Ip

  /** `machete_reaction`; `Unknown` is any other number. */
  datatype Policy =
    | ShutdownCommunication
    | ShutdownAndStartAgain
    | ReusePathsLeft
    | CreateNewPath
    | DoNothing
    | Unknown
  {
    predicate TearsDown() {
      ShutdownCommunication? || ShutdownAndStartAgain? || Unknown?
    }

    predicate Exits() {
      ShutdownCommunication? || Unknown?
    }
  }

  /** What does not change during a session. */
  datatype Config = Config(policy: Policy, max: int, flows: seq<Flow>, port: nat)

  /** What alerts may change. */
  datatype Status = Status(
    history: seq<HijackAlert>, paths: seq<PathStatus>,
    own: Table, nodes: map<Ip, Table>, open: bool, teardowns: nat)

  /** How the alert loop ends: it waits for more, the socket has failed, or the process is gone. */
  datatype LoopEnd = Waiting | ReadFailed | Exited

  function TornDown(c: Config, st: Status): Status {
    st.(own := OwnCleaned(st.own, c.flows), nodes := NodesCleaned(st.nodes, c.flows, c.port),
        open := false, teardowns := st.teardowns + 1)
  }

  function OnSignal(c: Config, st: Status): Status {
    if c.policy.TearsDown() then TornDown(c, st) else st
  }

  function Record(st: Status, a: HijackAlert): Status {
    st.(history := st.history + [a], paths := Analyse(st.paths, a))
  }

  /** One more alert, `received` having come before it. */
  function OnAlert(c: Config, st: Status, a: HijackAlert, received: nat): Status {
    if received + 1 >= c.max then OnSignal(c, Record(st, a)) else Record(st, a)
  }

  /** One turn of the alert loop on what the socket gives; `None` to go on. */
  function Turn(c: Config, st: Status, r: Read, received: nat): (Status, Option<LoopEnd>)
    requires WellFormed(r)
  {
    if !st.open || r.Failed? then (st, Some(ReadFailed))
    else
      var st' := OnAlert(c, st, Parsed(r), received);
      (st', if received + 1 >= c.max && c.policy.Exits() then Some(Exited) else None)
  }

  function Loop(c: Config, st: Status, input: seq<Read>, received: nat): (r: (Status, LoopEnd))
    requires AllWellFormed(input)
    decreases input
  {
    if input == [] then (st, Waiting)
    else
      var (st', end) := Turn(c, st, input[0], received);
      if end.Some? then (st', end.value) else Loop(c, st', input[1..], received + 1)
  }

  /** With the first k reads dealt with, `st` and the rest of the input decide the outcome. */
  ghost predicate Reached(c: Config, start: Status, input: seq<Read>, k: nat, st: Status) {
    AllWellFormed(input) && k <= |input| && Loop(c, st, input[k..], k) == Loop(c, start, input, 0)
  }

  /** The loop over `input` ends like this. */
  ghost predicate Over(c: Config, start: Status, input: seq<Read>, st: Status, end: LoopEnd) {
    AllWellFormed(input) && Loop(c, start, input, 0) == (st, end)
  }

  lemma ReachedStart(c: Config, start: Status, input: seq<Read>)
    requires AllWellFormed(input)
    ensures Reached(c, start, input, 0, start)
  {
    Seqs.Whole(input);
  }

  lemma ReachedEnd(c: Config, start: Status, input: seq<Read>, st: Status)
    requires Reached(c, start, input, |input|, st)
    ensures Over(c, start, input, st, Waiting)
  {
  }

  /** One turn of the loop, by position in the input. */
  lemma LoopTurn(c: Config, start: Status, input: seq<Read>, k: nat, st: Status)
    requires Reached(c, start, input, k, st) && k < |input|
    ensures WellFormed(input[k])
    ensures var (st', end) := Turn(c, st, input[k], k);
      if end.Some? then Over(c, start, input, st', end.value) else Reached(c, start, input, k + 1, st')
  {
    Seqs.Grow(input, k);
  }

  // ---------- what every run amounts to ----------

  /** The alerts that arrive before the socket fails. */
  function Received(input: seq<Read>): (alerts: seq<HijackAlert>)
    requires AllWellFormed(input)
  {
    if input == [] || input[0].Failed? then [] else [Parsed(input[0])] + Received(input[1..])
  }

  /** How many alerts it takes: a maximum of zero or less still needs one. */
  function Needed(max: int): nat {
    if max >= 1 then max else 1
  }

  predicate Fires(c: Config, alerts: seq<HijackAlert>) {
    c.policy.TearsDown() && |alerts| >= Needed(c.max)
  }

  /** The alerts that are handled: up to the one that brings the session down. */
  function Handled(c: Config, alerts: seq<HijackAlert>): seq<HijackAlert> {
    if Fires(c, alerts) then alerts[..Needed(c.max)] else alerts
  }

  /** Recording a list of alerts, one by one. */
  function RecordAll(st: Status, alerts: seq<HijackAlert>): Status
    decreases alerts
  {
    if alerts == [] then st else RecordAll(Record(st, alerts[0]), alerts[1..])
  }

  lemma {:induction false} RecordAllKeeps(st: Status, alerts: seq<HijackAlert>)
    ensures var r := RecordAll(st, alerts);
      && r.history == st.history + alerts
      && r == st.(history := r.history, paths := r.paths)
    decreases alerts
  {
    if alerts == [] {
      Seqs.NilRight(st.history);
    } else {
      RecordAllKeeps(Record(st, alerts[0]), alerts[1..]);
      Seqs.Assoc(st.history, [alerts[0]], alerts[1..]);
      Seqs.Uncons(alerts);
    }
  }

  lemma {:induction false} AnalyseFromFront(ps: seq<PathStatus>, a: HijackAlert, rest: seq<HijackAlert>)
    ensures AnalyseAll(ps, [a] + rest) == AnalyseAll(Analyse(ps, a), rest)
    decreases rest
  {
    if rest == [] {
      Seqs.NilRight([a]);
      assert [a][..0] == [];
      assert AnalyseAll(ps, [a]) == Analyse(AnalyseAll(ps, []), a);
    } else {
      var before, last := rest[..|rest| - 1], rest[|rest| - 1];
      Seqs.Unsnoc(rest);
      Seqs.Assoc([a], before, [last]);
      Seqs.Snoc([a] + before, last);
      AnalyseFromFront(ps, a, before);
    }
  }

  lemma {:induction false} RecordAllPaths(st: Status, alerts: seq<HijackAlert>)
    ensures RecordAll(st, alerts).paths == AnalyseAll(st.paths, alerts)
    decreases alerts
  {
    if alerts != [] {
      RecordAllPaths(Record(st, alerts[0]), alerts[1..]);
      AnalyseFromFront(st.paths, alerts[0], alerts[1..]);
      Seqs.Uncons(alerts);
    }
  }

  /** Under a policy that does nothing the signal changes nothing, however often it comes. */
  lemma {:induction false} QuietRun(c: Config, st: Status, input: seq<Read>, received: nat)
    requires AllWellFormed(input) && !c.policy.TearsDown() && st.open
    ensures Loop(c, st, input, received).0 == RecordAll(st, Received(input))
    ensures Loop(c, st, input, received).1 != Exited
    decreases input
  {
    if input != [] && !input[0].Failed? {
      QuietRun(c, Record(st, Parsed(input[0])), input[1..], received + 1);
      Seqs.Cons(Parsed(input[0]), Received(input[1..]));
    }
  }

  /** Under a policy that tears down, too few alerts leave the session up. */
  lemma {:induction false} ShortRun(c: Config, st: Status, input: seq<Read>, received: nat)
    requires AllWellFormed(input) && c.policy.TearsDown() && st.open
    requires received + |Received(input)| < Needed(c.max)
    ensures Loop(c, st, input, received).0 == RecordAll(st, Received(input))
    ensures Loop(c, st, input, received).1 != Exited
    decreases input
  {
    if input != [] && !input[0].Failed? {
      Seqs.Cons(Parsed(input[0]), Received(input[1..]));
      ShortRun(c, Record(st, Parsed(input[0])), input[1..], received + 1);
    }
  }

  /** With enough of them, the alert that completes the number is the last one recorded,
      and the session goes down with it. */
  lemma {:induction false} FatalRun(c: Config, st: Status, input: seq<Read>, received: nat)
    requires AllWellFormed(input) && c.policy.TearsDown() && st.open
    requires received < Needed(c.max) <= received + |Received(input)|
    ensures Loop(c, st, input, received).0 == OnSignal(c, RecordAll(st, Received(input)[..Needed(c.max) - received]))
    ensures Loop(c, st, input, received).1 == Exited <==> c.policy.Exits()
    decreases input
  {
    var a, rest := Parsed(input[0]), Received(input[1..]);
    var left := Needed(c.max) - received;
    TakeCons(a, rest, left);
    if left > 1 {
      FatalRun(c, Record(st, a), input[1..], received + 1);
    } else {
      assert RecordAll(Record(st, a), rest[..0]) == Record(st, a);
    }
  }

  lemma TakeCons(a: HijackAlert, rest: seq<HijackAlert>, n: nat)
    requires 1 <= n <= |rest| + 1
    ensures ([a] + rest)[..n] == [a] + rest[..n - 1]
    ensures ([a] + rest)[..n][0] == a && ([a] + rest)[..n][1..] == rest[..n - 1]
  {
  }

  /** Every run, in one statement. The session is torn down if and only if the policy is
      one that does so and at least max(1, maximum) alerts arrive; it is torn down once;
      the history and the paths have seen exactly the alerts up to that one, in order; and
      otherwise neither the tables nor the socket are touched. */
  lemma EveryRun(c: Config, st: Status, input: seq<Read>)
    requires AllWellFormed(input) && st.open
    ensures var alerts := Received(input);
      var (st', end) := Loop(c, st, input, 0);
      && st'.history == st.history + Handled(c, alerts)
      && st'.paths == AnalyseAll(st.paths, Handled(c, alerts))
      && (Fires(c, alerts) ==>
           && st'.teardowns == st.teardowns + 1 && !st'.open
           && st'.own == OwnCleaned(st.own, c.flows)
           && st'.nodes == NodesCleaned(st.nodes, c.flows, c.port))
      && (!Fires(c, alerts) ==>
           && st'.teardowns == st.teardowns && st'.open
           && st'.own == st.own && st'.nodes == st.nodes)
      && (end == Exited <==> Fires(c, alerts) && c.policy.Exits())
  {
    var alerts := Received(input);
    if Fires(c, alerts) {
      FatalRun(c, st, input, 0);
    } else if c.policy.TearsDown() {
      ShortRun(c, st, input, 0);
    } else {
      QuietRun(c, st, input, 0);
    }
    RecordAllKeeps(st, Handled(c, alerts));
    RecordAllPaths(st, Handled(c, alerts));
  }

  /** What arrives: the reads up to the first that fails, each cut at its commas. */
  lemma {:induction false} ReceivedAre(input: seq<Read>)
    requires AllWellFormed(input)
    ensures var alerts := Received(input);
      && |alerts| <= |input|
      && (forall k :: 0 <= k < |alerts| ==>
           && WellFormed(input[k]) && input[k].Datagram?
           && var fields := Tokens(input[k].text, ',');
             alerts[k] == HijackAlert(input[k].time, fields[0], fields[1], fields[2], fields[3]))
      && (|alerts| < |input| ==> input[|alerts|].Failed?)
  {
    if input != [] && !input[0].Failed? {
      ReceivedAre(input[1..]);
      var rest := Received(input[1..]);
      assert forall k :: 0 < k <= |rest| ==> input[k] == input[1..][k - 1] && Received(input)[k] == rest[k - 1];
    }
  }

  /** What each reaction does, number by number: shutting down and any unknown number end
      the process with the alert that makes the number full, after one teardown; shutting
      down to start again tears down once and goes on; the others never do anything. */
  lemma EveryReaction(c: Config, st: Status, input: seq<Read>)
    requires AllWellFormed(input) && st.open
    ensures var n, needed := |Received(input)|, if c.max >= 1 then c.max else 1;
      var (st', end) := Loop(c, st, input, 0);
      && (c.policy == ShutdownCommunication || c.policy == Unknown ==>
           && (end == Exited <==> n >= needed)
           && st'.teardowns == st.teardowns + (if n >= needed then 1 else 0)
           && (st'.open <==> n < needed))
      && (c.policy == ShutdownAndStartAgain ==>
           && end != Exited
           && st'.teardowns == st.teardowns + (if n >= needed then 1 else 0)
           && (st'.open <==> n < needed))
      && (c.policy == ReusePathsLeft || c.policy == CreateNewPath || c.policy == DoNothing ==>
           && end != Exited && st'.teardowns == st.teardowns && st'.open
           && st'.own == st.own && st'.nodes == st.nodes
           && st'.history == st.history + Received(input))
      && (c.policy == ShutdownCommunication || c.policy == Unknown || c.policy == ShutdownAndStartAgain ==>
           st'.history == st.history + if n >= needed then Received(input)[..needed] else Received(input))
  {
    EveryRun(c, st, input);
  }

  /** A whole session: what was set up before the alerts is gone after a run that fires,
      and every table is back to what it held before the setup. */
  lemma FiredRunRestores(c: Config, w: World, st: Status, input: seq<Read>)
    requires AllWellFormed(input) && st.open
    requires st.own == AfterSetup(w, c.flows, c.port).own && st.nodes == AfterSetup(w, c.flows, c.port).nodes
    requires Fires(c, Received(input))
    ensures var st' := Loop(c, st, input, 0).0;
      AllRestored(w, st'.own, st'.nodes, c.flows, c.port)
  {
    EveryRun(c, st, input);
    TeardownUndoesSetup(w, c.flows, c.port);
  }

  lemma FiresMeans(c: Config, alerts: seq<HijackAlert>)
    ensures var full := |alerts| >= 1 && |alerts| >= c.max;
      var down := full && (c.policy == ShutdownCommunication || c.policy == ShutdownAndStartAgain || c.policy == Unknown);
      && (Fires(c, alerts) <==> down)
      && Handled(c, alerts) == if !down then alerts else if c.max >= 1 then alerts[..c.max] else alerts[..1]
  {
  }

  /** What the lists and the socket of a session come to. */
  lemma SessionLists(c: Config, st: Status, input: seq<Read>)
    requires AllWellFormed(input) && st.open && st.history == [] && st.paths == []
    ensures var alerts := Received(input);
      var (st', end) := Loop(c, st, input, 0);
      && st'.history == Handled(c, alerts) && st'.paths == []
      && (end == Exited <==> Fires(c, alerts) && c.policy.Exits())
      && st'.teardowns == st.teardowns + (if Fires(c, alerts) then 1 else 0)
  {
    EveryRun(c, st, input);
    Seqs.NilLeft(Handled(c, Received(input)));
    assert |AnalyseAll([], Handled(c, Received(input)))| == 0;
  }

  /** What its tables come to. */
  lemma SessionTables(c: Config, w: World, st: Status, input: seq<Read>)
    requires AllWellFormed(input) && st.open
    requires st.own == AfterSetup(w, c.flows, c.port).own && st.nodes == AfterSetup(w, c.flows, c.port).nodes
    ensures var st' := Loop(c, st, input, 0).0;
      if Fires(c, Received(input)) then AllRestored(w, st'.own, st'.nodes, c.flows, c.port)
      else st'.own == st.own && st'.nodes == st.nodes
  {
    if Fires(c, Received(input)) {
      FiredRunRestores(c, w, st, input);
    } else {
      EveryRun(c, st, input);
    }
  }

  /** All that can be said of a session that has been set up on world `w` with empty lists. */
  lemma WholeSession(c: Config, w: World, st: Status, input: seq<Read>)
    requires AllWellFormed(input) && st.open && st.history == [] && st.paths == []
    requires st.own == AfterSetup(w, c.flows, c.port).own && st.nodes == AfterSetup(w, c.flows, c.port).nodes
    ensures var alerts := Received(input);
      var full := |alerts| >= 1 && |alerts| >= c.max;
      var down := full && (c.policy == ShutdownCommunication || c.policy == ShutdownAndStartAgain || c.policy == Unknown);
      var (st', end) := Loop(c, st, input, 0);
      && st'.history == (if !down then alerts else if c.max >= 1 then alerts[..c.max] else alerts[..1])
      && st'.paths == []
      && (end == Exited <==> down && c.policy != ShutdownAndStartAgain)
      && st'.teardowns == st.teardowns + (if down then 1 else 0)
      && (down ==> AllRestored(w, st'.own, st'.nodes, c.flows, c.port))
      && (!down ==>
           st'.own == AfterSetup(w, c.flows, c.port).own && st'.nodes == AfterSetup(w, c.flows, c.port).nodes)
  {
    FiresMeans(c, Received(input));
    SessionLists(c, st, input);
    SessionTables(c, w, st, input);
  }
}
