/** The monitored paths and what an alert changes on them. */
module MonitoredPaths {
  import opened Wrappers
  import opened LinkedList
  import Seqs

  type Ip = string
  type Time = int

  /** A path; `last` and `previous` are the times of its last two alerts, null at first. */
  datatype PathStatus = PathStatus(
    previous: Option<Time>, last: Option<Time>, source: Ip, relay: Ip, destination: Ip, wasHijacked: bool)

  datatype HijackAlert = HijackAlert(time: Time, kind: string, source: Ip, destination: Ip, metric: string)

  function NewPath(source: Ip, relay: Ip, destination: Ip): PathStatus {
    PathStatus(None, None, source, relay, destination, false)
  }

  // ---------- specification ----------

  /** The first path at or after `k` relayed by `relay`; the length if there is none. */
  function FirstRelay(ps: seq<PathStatus>, k: nat, relay: Ip): (r: nat)
    requires k <= |ps|
    ensures k <= r <= |ps| && (r < |ps| ==> ps[r].relay == relay)
    ensures forall i :: k <= i < r ==> ps[i].relay != relay
    decreases |ps| - k
  {
    if k == |ps| || ps[k].relay == relay then k else FirstRelay(ps, k + 1, relay)
  }

  function FirstHijacked(ps: seq<PathStatus>, k: nat, value: bool): (r: nat)
    requires k <= |ps|
    ensures k <= r <= |ps| && (r < |ps| ==> ps[r].wasHijacked == value)
    ensures forall i :: k <= i < r ==> ps[i].wasHijacked != value
    decreases |ps| - k
  {
    if k == |ps| || ps[k].wasHijacked == value then k else FirstHijacked(ps, k + 1, value)
  }

  /** The path an alert is about: the first whose relay is the alert's source, otherwise
      the first whose relay is its destination; the length if there is none. */
  function Resolve(ps: seq<PathStatus>, a: HijackAlert): nat {
    var k := FirstRelay(ps, 0, a.source);
    if k < |ps| then k else FirstRelay(ps, 0, a.destination)
  }

  function Flag(p: PathStatus, t: Time): PathStatus {
    p.(wasHijacked := true, previous := if p.last == None then p.previous else p.last, last := Some(t))
  }

  function Analyse(ps: seq<PathStatus>, a: HijackAlert): seq<PathStatus> {
    var k := Resolve(ps, a);
    if k < |ps| then ps[k := Flag(ps[k], a.time)] else ps
  }

  /** The entry that an alert is about: the first one relayed by the alert's source or, if
      there is none in the whole list, the first one relayed by its destination. */
  lemma ResolveMeans(ps: seq<PathStatus>, a: HijackAlert, k: nat)
    requires k < |ps|
    ensures Resolve(ps, a) == k <==>
      (|| (ps[k].relay == a.source && forall i :: 0 <= i < k ==> ps[i].relay != a.source)
       || (&& (forall i :: 0 <= i < |ps| ==> ps[i].relay != a.source)
           && ps[k].relay == a.destination && forall i :: 0 <= i < k ==> ps[i].relay != a.destination))
    ensures Resolve(ps, a) >= |ps| <==>
      forall i :: 0 <= i < |ps| ==> ps[i].relay != a.source && ps[i].relay != a.destination
  {
  }

  /** What an alert does to every entry: the one it is about is flagged, its last time moves
      to the previous one unless it had none, and the alert's time becomes the last one; all
      others stay as they are. */
  lemma AnalyseMeans(ps: seq<PathStatus>, a: HijackAlert, k: nat)
    requires k < |ps|
    ensures |Analyse(ps, a)| == |ps|
    ensures var p, about :=
        ps[k],
        (|| (ps[k].relay == a.source && forall i :: 0 <= i < k ==> ps[i].relay != a.source)
         || (&& (forall i :: 0 <= i < |ps| ==> ps[i].relay != a.source)
             && ps[k].relay == a.destination && forall i :: 0 <= i < k ==> ps[i].relay != a.destination));
      Analyse(ps, a)[k] ==
        if !about then p
        else if p.last == None
        then PathStatus(p.previous, Some(a.time), p.source, p.relay, p.destination, true)
        else PathStatus(p.last, Some(a.time), p.source, p.relay, p.destination, true)
  {
    ResolveMeans(ps, a, k);
  }

  function AnalyseAll(ps: seq<PathStatus>, alerts: seq<HijackAlert>): (r: seq<PathStatus>)
    ensures |r| == |ps|
  {
    if alerts == [] then ps else Analyse(AnalyseAll(ps, alerts[..|alerts| - 1]), alerts[|alerts| - 1])
  }

  /** The times of the alerts that resolve to path `k`, in order of arrival. */
  function Times(ps: seq<PathStatus>, alerts: seq<HijackAlert>, k: nat): seq<Time> {
    if alerts == [] then [] else
      var earlier, a := Times(ps, alerts[..|alerts| - 1], k), alerts[|alerts| - 1];
      if Resolve(ps, a) == k then earlier + [a.time] else earlier
  }

  /** One more alert adds its time to the list of the path it is about. */
  lemma TimesGrow(ps: seq<PathStatus>, alerts: seq<HijackAlert>, a: HijackAlert, k: nat)
    ensures Times(ps, [], k) == []
    ensures Times(ps, alerts + [a], k) == if Resolve(ps, a) == k then Times(ps, alerts, k) + [a.time] else Times(ps, alerts, k)
  {
    Seqs.Snoc(alerts, a);
  }

  /** The status of a path sums up the list of all its alert times. */
  predicate Summarises(p: PathStatus, times: seq<Time>) {
    && p.wasHijacked == (times != [])
    && p.last == (if |times| >= 1 then Some(times[|times| - 1]) else None)
    && p.previous == (if |times| >= 2 then Some(times[|times| - 2]) else None)
  }

  predicate SameRoute(p: PathStatus, q: PathStatus) {
    p.source == q.source && p.relay == q.relay && p.destination == q.destination
  }

  lemma {:induction false} FirstRelayStable(ps: seq<PathStatus>, qs: seq<PathStatus>, k: nat, relay: Ip)
    requires |ps| == |qs| && k <= |ps| && forall i :: 0 <= i < |ps| ==> SameRoute(ps[i], qs[i])
    ensures FirstRelay(ps, k, relay) == FirstRelay(qs, k, relay)
    decreases |ps| - k
  {
    if k < |ps| {
      assert SameRoute(ps[k], qs[k]);
      FirstRelayStable(ps, qs, k + 1, relay);
    }
  }

  /** Alerts never change which path is which, so resolution never depends on history. */
  lemma {:induction false} RoutesNeverChange(ps: seq<PathStatus>, alerts: seq<HijackAlert>)
    ensures forall i :: 0 <= i < |ps| ==> SameRoute(ps[i], AnalyseAll(ps, alerts)[i])
    ensures forall a :: Resolve(AnalyseAll(ps, alerts), a) == Resolve(ps, a)
  {
    if alerts != [] {
      RoutesNeverChange(ps, alerts[..|alerts| - 1]);
    }
    forall a ensures Resolve(AnalyseAll(ps, alerts), a) == Resolve(ps, a) {
      FirstRelayStable(ps, AnalyseAll(ps, alerts), 0, a.source);
      FirstRelayStable(ps, AnalyseAll(ps, alerts), 0, a.destination);
    }
  }

  /** Whole-run summary: after any run of alerts every path says whether, when last and
      when before that an alert resolved to it, counting earlier alerts too. */
  lemma {:induction false} StatusSumsUpAlerts(ps: seq<PathStatus>, alerts: seq<HijackAlert>, k: nat, earlier: seq<Time>)
    requires k < |ps| && Summarises(ps[k], earlier)
    ensures Summarises(AnalyseAll(ps, alerts)[k], earlier + Times(ps, alerts, k))
  {
    if alerts == [] {
      Seqs.NilRight(earlier);
    } else {
      var before, a := alerts[..|alerts| - 1], alerts[|alerts| - 1];
      StatusSumsUpAlerts(ps, before, k, earlier);
      RoutesNeverChange(ps, before);
      OneMoreAlert(AnalyseAll(ps, before), a, k, earlier + Times(ps, before, k));
      Seqs.Assoc(earlier, Times(ps, before, k), [a.time]);
    }
  }

  lemma OneMoreAlert(ps: seq<PathStatus>, a: HijackAlert, k: nat, times: seq<Time>)
    requires k < |ps| && Summarises(ps[k], times)
    ensures Summarises(Analyse(ps, a)[k], if Resolve(ps, a) == k then times + [a.time] else times)
  {
    Seqs.Snoc(times, a.time);
    if Resolve(ps, a) == k {
      assert Analyse(ps, a)[k] == Flag(ps[k], a.time);
      assert |times| >= 1 ==> (times + [a.time])[|times| - 1] == times[|times| - 1];
    }
  }

  /** Of several paths through one relay only the first is ever flagged. */
  lemma LaterPathsOfARelayStayClean(ps: seq<PathStatus>, alerts: seq<HijackAlert>, j: nat, k: nat)
    requires j < k < |ps| && ps[j].relay == ps[k].relay
    ensures Times(ps, alerts, k) == [] && AnalyseAll(ps, alerts)[k] == ps[k]
  {
    if alerts != [] {
      var before := alerts[..|alerts| - 1];
      LaterPathsOfARelayStayClean(ps, before, j, k);
      RoutesNeverChange(ps, before);
      assert Resolve(ps, alerts[|alerts| - 1]) != k;
    }
  }

  /** The paths whose flag has the given value, in list order. */
  function Flagged(ps: seq<PathStatus>, value: bool): seq<PathStatus> {
    if ps == [] then []
    else if ps[0].wasHijacked == value then [ps[0]] + Flagged(ps[1..], value)
    else Flagged(ps[1..], value)
  }

  /** The list grows by a path exactly when its flag has the value. */
  lemma {:induction false} FlaggedGrows(ps: seq<PathStatus>, p: PathStatus, value: bool)
    ensures Flagged([], value) == []
    ensures Flagged(ps + [p], value) == if p.wasHijacked == value then Flagged(ps, value) + [p] else Flagged(ps, value)
  {
    if ps == [] {
      Seqs.NilLeft([p]);
      assert [p][1..] == [];
      assert Flagged([p], value) == if p.wasHijacked == value then [p] + Flagged([], value) else Flagged([], value);
    } else {
      Seqs.HeadTail(ps, [p]);
      FlaggedGrows(ps[1..], p, value);
      Seqs.Assoc([ps[0]], Flagged(ps[1..], value), [p]);
    }
  }

  // ---------- the list walks ----------

  method LookupByRelay(paths: List<PathStatus>, start: Node?<PathStatus>, ghost from: nat, relay: Ip)
    returns (t: Node?<PathStatus>, ghost k: nat)
    requires paths.Valid() && paths.At(start, from)
    ensures paths.At(t, FirstRelay(paths.contents, from, relay))
    ensures k == FirstRelay(paths.contents, from, relay)
  {
    t, k := start, from;
    while t != null
      invariant paths.At(t, k)
      invariant FirstRelay(paths.contents, from, relay) == FirstRelay(paths.contents, k, relay)
      decreases |paths.spine| - k
    {
      paths.NextAt(t, k);
      if t.item.relay == relay {
        return;
      }
      t, k := t.next, k + 1;
    }
  }

  method LookupByHijackValue(paths: List<PathStatus>, start: Node?<PathStatus>, ghost from: nat, value: bool)
    returns (t: Node?<PathStatus>, ghost k: nat)
    requires paths.Valid() && paths.At(start, from)
    ensures paths.At(t, FirstHijacked(paths.contents, from, value))
    ensures k == FirstHijacked(paths.contents, from, value)
  {
    t, k := start, from;
    while t != null
      invariant paths.At(t, k)
      invariant FirstHijacked(paths.contents, from, value) == FirstHijacked(paths.contents, k, value)
      decreases |paths.spine| - k
    {
      paths.NextAt(t, k);
      if t.item.wasHijacked == value {
        return;
      }
      t, k := t.next, k + 1;
    }
  }

  /** The alert's time is copied, so the list shares nothing with the history. */
  method UpdatePathStatus(paths: List<PathStatus>, node: Node<PathStatus>, ghost k: nat, a: HijackAlert)
    requires paths.Valid() && k < |paths.spine| && node == paths.spine[k]
    modifies paths`contents, node
    ensures paths.Valid() && paths.contents == old(paths.contents)[k := Flag(old(paths.contents)[k], a.time)]
  {
    var item := node.item.(wasHijacked := true);
    if item.last == None {
      item := item.(last := Some(a.time));
    } else {
      item := item.(previous := item.last);
      item := item.(last := Some(a.time));
    }
    paths.Update(node, k, item);
  }

  method AnalyseHijackAlert(paths: List<PathStatus>, a: HijackAlert)
    requires paths.Valid()
    modifies paths`contents, paths.repr
    ensures paths.Valid() && paths.contents == Analyse(old(paths.contents), a)
  {
    var node, k := LookupByRelay(paths, paths.head, 0, a.source);
    if node != null {
      UpdatePathStatus(paths, node, k, a);
    } else {
      node, k := LookupByRelay(paths, paths.head, 0, a.destination);
      if node != null {
        UpdatePathStatus(paths, node, k, a);
      }
    }
  }

  /** What is still to be printed when the walk has reached node `k`. */
  ghost function Ahead(ps: seq<PathStatus>, k: nat, value: bool): seq<PathStatus>
    requires k <= |ps|
  {
    Flagged(ps[k..], value)
  }

  lemma {:induction false} AheadSkips(ps: seq<PathStatus>, k: nat, value: bool)
    requires k <= |ps|
    ensures Ahead(ps, k, value) == Ahead(ps, FirstHijacked(ps, k, value), value)
    decreases |ps| - k
  {
    if k < |ps| && ps[k].wasHijacked != value {
      Seqs.Grow(ps, k);
      AheadSkips(ps, k + 1, value);
    }
  }

  lemma AheadStep(ps: seq<PathStatus>, k: nat, value: bool, shown: seq<PathStatus>)
    requires k < |ps| && ps[k].wasHijacked == value
    ensures shown + Ahead(ps, k, value) == shown + [ps[k]] + Ahead(ps, FirstHijacked(ps, k + 1, value), value)
  {
    Seqs.Grow(ps, k);
    AheadSkips(ps, k + 1, value);
    Seqs.Assoc(shown, [ps[k]], Ahead(ps, k + 1, value));
  }

  /** The paths that are printed: exactly those with the flag, once each, in order. */
  method ShowHijackedPaths(paths: List<PathStatus>, value: bool) returns (shown: seq<PathStatus>)
    requires paths.Valid()
    ensures shown == Flagged(paths.contents, value)
  {
    shown := [];
    var node, k := LookupByHijackValue(paths, paths.head, 0, value);
    ghost var all := paths.contents;
    AheadSkips(all, 0, value);
    Seqs.Whole(all);
    Seqs.NilLeft(Flagged(all, value));
    while node != null
      invariant paths.At(node, k)
      invariant k < |all| ==> all[k].wasHijacked == value
      invariant Flagged(all, value) == shown + Ahead(all, k, value)
      decreases |paths.spine| - k
    {
      paths.NextAt(node, k);
      AheadStep(all, k, value, shown);
      shown := shown + [node.item];
      node, k := LookupByHijackValue(paths, node.next, k + 1, value);
    }
    Seqs.NilRight(shown);
  }
}
