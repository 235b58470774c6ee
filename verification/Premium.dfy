/** The sender process: it sets the session up, receives alerts, and reacts to them. */
module Premium {
  import opened Wrappers
  import opened Text
  import opened SenderSpec
  import opened MonitoredPaths
  import opened AlertsReceiver
  import opened Reaction
  import Sender
  import Seqs

  class Process {
    const sender: Sender.Sender
    const dar: Dar
    const port: nat
    const policy: Policy
    var connected: bool
    /** The alert socket. */
    var darOpen: bool
    var teardowns: nat

    constructor (sender: Sender.Sender, dar: Dar, port: nat, policy: Policy)
      ensures this.sender == sender && this.dar == dar && this.port == port && this.policy == policy
      ensures !connected && !darOpen && teardowns == 0
    {
      this.sender, this.dar, this.port, this.policy := sender, dar, port, policy;
      connected, darOpen, teardowns := false, false, 0;
    }

    ghost function TheConfig(): Config
      requires sender.plan.hops != []
      reads dar`maxAlerts
    {
      Config(policy, dar.maxAlerts, sender.TheFlows(), port)
    }

    ghost function Now(): Status
      reads `darOpen, `teardowns, dar.history`contents, dar.paths`contents, sender`table, sender`nodes
    {
      Status(dar.history.contents, dar.paths.contents, sender.table, sender.nodes, darOpen, teardowns)
    }

    /** All flows up, then the alert receiver started from empty lists, then the connection.
        The paths registered during the setup are lost on the way. */
    method SetupSender(maxAlerts: int)
      requires sender.Ready() && dar.Valid()
      modifies this, sender`table, sender`nodes, dar, dar.paths, dar.paths.repr, dar.history
      ensures sender.Ready() && dar.Valid() && connected && dar.maxAlerts == maxAlerts
      ensures dar.paths.repr == {} && dar.history.repr == {}
      ensures var up := AfterSetup(World(old(sender.table), old(sender.nodes), []), sender.TheFlows(), port);
        Now() == Status([], [], up.own, up.nodes, true, old(teardowns))
    {
      sender.SetupTables(port, dar.paths);
      dar.SetupDar(maxAlerts);
      darOpen, connected := true, true;
    }

    method TeardownSender()
      requires sender.Ready()
      modifies this, sender`table, sender`nodes
      ensures sender.Ready() && !connected && TheConfig() == old(TheConfig())
      ensures Now() == TornDown(TheConfig(), old(Now()))
    {
      connected := false;
      darOpen := false;
      sender.CleanRules(port);
      teardowns := teardowns + 1;
    }

    /** The signal handler; true if it ends the process. */
    method HandleDarSignal() returns (exited: bool)
      requires sender.Ready()
      modifies this, sender`table, sender`nodes
      ensures sender.Ready() && TheConfig() == old(TheConfig()) && exited == policy.Exits()
      ensures exited <==> policy == ShutdownCommunication || policy == Unknown
      ensures Now() == OnSignal(TheConfig(), old(Now()))
      ensures if policy == ShutdownCommunication || policy == ShutdownAndStartAgain || policy == Unknown
              then Now() == TornDown(TheConfig(), old(Now())) && !connected
              else Now() == old(Now()) && connected == old(connected)
    {
      exited := false;
      match policy {
        case ShutdownCommunication =>
          TeardownSender();
          exited := true;
        case ShutdownAndStartAgain =>
          TeardownSender();
        case ReusePathsLeft =>
        case CreateNewPath =>
        case DoNothing =>
        case Unknown =>
          TeardownSender();
          exited := true;
      }
    }

    method RecordAlert(text: string, time: Time)
      requires sender.Ready() && dar.Valid() && |Tokens(text, ',')| >= 4
      modifies dar.paths`contents, dar.paths.repr, dar.history, dar.history.repr
      ensures dar.Valid() && fresh(dar.history.repr - old(dar.history.repr)) && TheConfig() == old(TheConfig())
      ensures Now() == Record(old(Now()), ParseAlert(text, time))
    {
      dar.HandleClientAlert(text, time);
    }

    /** Raises the signal once the maximum is reached, counting the alert just handled. */
    method AlertMachete(received: nat) returns (exited: bool)
      requires sender.Ready()
      modifies this, sender`table, sender`nodes
      ensures sender.Ready() && TheConfig() == old(TheConfig())
      ensures Now() == if received + 1 >= dar.maxAlerts then OnSignal(TheConfig(), old(Now())) else old(Now())
      ensures exited <==> received + 1 >= dar.maxAlerts && policy.Exits()
    {
      exited := false;
      if received + 1 >= dar.maxAlerts {
        exited := HandleDarSignal();
      }
    }

    /** One alert that was read: handled, then counted against the maximum. */
    method ReceiveAlert(text: string, time: Time, received: nat) returns (exited: bool)
      requires sender.Ready() && dar.Valid() && |Tokens(text, ',')| >= 4
      modifies this, sender`table, sender`nodes, dar.paths`contents, dar.paths.repr, dar.history, dar.history.repr
      ensures sender.Ready() && dar.Valid() && fresh(dar.history.repr - old(dar.history.repr))
      ensures TheConfig() == old(TheConfig())
      ensures Now() == OnAlert(TheConfig(), old(Now()), ParseAlert(text, time), received)
      ensures exited <==> received + 1 >= dar.maxAlerts && policy.Exits()
    {
      RecordAlert(text, time);
      exited := AlertMachete(received);
    }

    /** One turn of the alert loop. */
    method HandleRead(read: Read, received: nat) returns (end: Option<LoopEnd>)
      requires sender.Ready() && dar.Valid() && WellFormed(read)
      modifies this, sender`table, sender`nodes, dar.paths`contents, dar.paths.repr, dar.history, dar.history.repr
      ensures sender.Ready() && dar.Valid() && fresh(dar.history.repr - old(dar.history.repr))
      ensures TheConfig() == old(TheConfig())
      ensures (Now(), end) == Turn(TheConfig(), old(Now()), read, received)
    {
      if !darOpen || read.Failed? {
        return Some(ReadFailed);
      }
      var exited := ReceiveAlert(read.text, read.time, received);
      end := if exited then Some(Exited) else None;
    }

    /** The turn for read number `k`, in a run of the loop that began with status `start`. */
    method NextRead(input: seq<Read>, k: nat, ghost start: Status) returns (end: Option<LoopEnd>)
      requires sender.Ready() && dar.Valid() && k < |input| && Reached(TheConfig(), start, input, k, Now())
      modifies this, sender`table, sender`nodes, dar.paths`contents, dar.paths.repr, dar.history, dar.history.repr
      ensures sender.Ready() && dar.Valid() && fresh(dar.history.repr - old(dar.history.repr))
      ensures TheConfig() == old(TheConfig())
      ensures if end.Some? then Over(TheConfig(), start, input, Now(), end.value)
              else Reached(TheConfig(), start, input, k + 1, Now())
    {
      LoopTurn(TheConfig(), start, input, k, Now());
      end := HandleRead(input[k], k);
    }

    /** The alert loop, over everything the socket delivers. */
    method HandleDarshanaClientLoop(input: seq<Read>) returns (end: LoopEnd)
      requires sender.Ready() && dar.Valid() && AllWellFormed(input)
      modifies this, sender`table, sender`nodes, dar.paths`contents, dar.paths.repr, dar.history, dar.history.repr
      ensures sender.Ready() && dar.Valid()
      ensures TheConfig() == old(TheConfig())
      ensures Over(TheConfig(), old(Now()), input, Now(), end)
    {
      ghost var c, st := TheConfig(), Now();
      var received := 0;
      ReachedStart(c, st, input);
      while received < |input|
        invariant sender.Ready() && dar.Valid() && fresh(dar.history.repr - old(dar.history.repr))
        invariant received <= |input| && TheConfig() == c && Reached(c, st, input, received, Now())
      {
        var over := NextRead(input, received, st);
        received := received + 1;
        if over.Some? {
          return over.value;
        }
      }
      ReachedEnd(c, st, input, Now());
      return Waiting;
    }

    /** A whole session, from the setup to the end of the alerts. */
    method RunSession(maxAlerts: int, input: seq<Read>) returns (end: LoopEnd)
      requires sender.Ready() && dar.Valid() && AllWellFormed(input)
      modifies this, sender`table, sender`nodes, dar, dar.paths, dar.paths.repr, dar.history, dar.history.repr
      ensures var c, alerts := TheConfig(), Received(input);
        var w := World(old(sender.table), old(sender.nodes), []);
        var full := |alerts| >= 1 && |alerts| >= maxAlerts;
        var down := full && (policy == ShutdownCommunication || policy == ShutdownAndStartAgain || policy == Unknown);
        && c.max == maxAlerts && c.flows == sender.TheFlows()
        && dar.history.contents == (if !down then alerts else if maxAlerts >= 1 then alerts[..maxAlerts] else alerts[..1])
        && dar.paths.contents == []
        && (end == Exited <==> down && policy != ShutdownAndStartAgain)
        && teardowns == old(teardowns) + (if down then 1 else 0)
        && (down ==> AllRestored(w, sender.table, sender.nodes, c.flows, port))
        && (!down ==>
             var up := AfterSetup(w, c.flows, port);
             sender.table == up.own && sender.nodes == up.nodes)
    {
      ghost var w := World(sender.table, sender.nodes, []);
      SetupSender(maxAlerts);
      ghost var c, st := TheConfig(), Now();
      end := HandleDarshanaClientLoop(input);
      WholeSession(c, w, st, input);
    }
  }
}
