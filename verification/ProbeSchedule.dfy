/** Which tool Darshana's full mode runs at each step. */
module ProbeSchedule {
  import Arithmetic

  datatype Tool = Ping | HopCount | Trace

  /** Pings since the last other tool, and hop counts since the last trace. */
  datatype Counters = Counters(numPings: nat, numHops: nat)

  function ToolFor(c: Counters): Tool {
    if c.numPings < 5 then Ping else if c.numHops < 5 then HopCount else Trace
  }

  function NextCounters(c: Counters): Counters {
    if c.numPings < 5 then Counters(c.numPings + 1, c.numHops)
    else if c.numHops < 5 then Counters(0, c.numHops + 1)
    else Counters(0, 0)
  }

  /** The counters after n steps from the start. */
  function After(n: nat): Counters {
    if n == 0 then Counters(0, 0) else NextCounters(After(n - 1))
  }

  /** The closed form: a trace at every 36th step, a hop count at every other 6th, a ping
      otherwise. */
  function Scheduled(n: nat): Tool {
    if n % 36 == 35 then Trace else if n % 6 == 5 then HopCount else Ping
  }

  /** Runs one tool, which the caller sees appended to `log`. */
  method ExecuteTool(counter: Counters, log: seq<Tool>) returns (next: Counters, log': seq<Tool>)
    ensures next == NextCounters(counter) && log' == log + [ToolFor(counter)]
  {
    var numPings, numHop := counter.numPings, counter.numHops;
    if numPings < 5 {
      log' := log + [Ping];
      numPings := numPings + 1;
    } else {
      if numHop < 5 {
        log' := log + [HopCount];
        numHop := numHop + 1;
      } else {
        log' := log + [Trace];
        numHop := 0;
      }
      numPings := 0;
    }
    next := Counters(numPings, numHop);
  }

  /** The first `steps` turns of the endless loop. */
  method FullMode(steps: nat) returns (log: seq<Tool>)
    ensures |log| == steps
    ensures forall n :: 0 <= n < steps ==>
      log[n] == if n % 36 == 35 then Trace else if n % 6 == 5 then HopCount else Ping
  {
    var counter := Counters(0, 0);
    log := [];
    for n := 0 to steps
      invariant counter == After(n) && |log| == n
      invariant forall k :: 0 <= k < n ==> log[k] == Scheduled(k)
    {
      Schedule(n);
      counter, log := ExecuteTool(counter, log);
    }
  }

  lemma {:induction false} CountersAre(n: nat)
    ensures After(n) == Counters(n % 6, n / 6 % 6)
  {
    if n > 0 {
      CountersAre(n - 1);
      Arithmetic.Successor(n - 1, 6);
      Arithmetic.Successor((n - 1) / 6, 6);
    }
  }

  lemma Schedule(n: nat)
    ensures ToolFor(After(n)) == Scheduled(n)
  {
    CountersAre(n);
    var q, r := n / 6, n % 6;
    var a, b := q / 6, q % 6;
    Arithmetic.DivModUnique(n, a, 6 * b + r, 36);
  }
}
