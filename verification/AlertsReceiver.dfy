/** The Darshana alerts receiver: it records every alert and marks the path it is about. */
module AlertsReceiver {
  import opened Text
  import opened LinkedList
  import opened MonitoredPaths
  import opened WireFormats

  /** The four comma-separated fields of an alert, stamped with the time of its arrival. */
  function ParseAlert(text: string, time: Time): HijackAlert
    requires |Tokens(text, ',')| >= 4
  {
    var t := Tokens(text, ',');
    HijackAlert(time, t[0], t[1], t[2], t[3])
  }

  /** What a read from the alert socket gives. */
  datatype Read = Failed | Datagram(text: string, time: Time)

  /** Whoever sends alerts sends four fields at least. */
  predicate WellFormed(r: Read) {
    r.Datagram? ==> |Tokens(r.text, ',')| >= 4
  }

  predicate AllWellFormed(input: seq<Read>) {
    forall i :: 0 <= i < |input| ==> WellFormed(input[i])
  }

  function Parsed(r: Read): HijackAlert
    requires r.Datagram? && WellFormed(r)
  {
    ParseAlert(r.text, r.time)
  }

  method ParseHijackAlert(text: string, time: Time) returns (a: HijackAlert)
    requires |Tokens(text, ',')| >= 4
    ensures a == ParseAlert(text, time)
  {
    var strtok := new Tokenizer(text, ',');
    var kind := strtok.Next();
    var source := strtok.Next();
    var destination := strtok.Next();
    var metric := strtok.Next();
    a := HijackAlert(time, kind.value, source.value, destination.value, metric.value);
  }

  /** An alert as Darshana prints it comes back as itself. */
  lemma PrintedAlertParses(kind: string, source: Ip, destination: Ip, metric: string, time: Time)
    requires IsField(kind, ',') && IsField(source, ',') && IsField(destination, ',') && IsField(metric, ',')
    ensures var text := AlertText(kind, source, destination, metric);
      && text == kind + "," + source + "," + destination + "," + metric
      && |Tokens(text, ',')| >= 4 && ParseAlert(text, time) == HijackAlert(time, kind, source, destination, metric)
  {
    AlertRoundTrip(kind, source, destination, metric);
  }

  class Dar {
    const paths: List<PathStatus>
    const history: List<HijackAlert>
    var maxAlerts: int

    ghost predicate Valid()
      reads paths, paths.repr, history, history.repr
    {
      paths.Valid() && history.Valid()
    }

    constructor ()
      ensures Valid() && paths.contents == [] && history.contents == []
      ensures fresh(paths) && fresh(history) && fresh(paths.repr) && fresh(history.repr)
    {
      paths := new List();
      history := new List();
      maxAlerts := 0;
    }

    /** Empties both lists: also the paths registered before. */
    method SetupDar(max: int)
      modifies this, paths, history
      ensures Valid() && paths.contents == [] && history.contents == [] && maxAlerts == max
      ensures paths.repr == {} && history.repr == {}
    {
      history.Init();
      paths.Init();
      maxAlerts := max;
    }

    method SaveHijackAlert(alert: HijackAlert)
      requires Valid()
      modifies history, history.repr
      ensures Valid() && fresh(history.repr - old(history.repr))
      ensures history.contents == old(history.contents) + [alert]
    {
      history.InsertEnd(alert);
    }

    /** One alert: recorded at the end of the history, then resolved to a path. */
    method HandleClientAlert(text: string, time: Time)
      requires Valid() && |Tokens(text, ',')| >= 4
      modifies paths`contents, paths.repr, history, history.repr
      ensures Valid() && fresh(history.repr - old(history.repr))
      ensures history.contents == old(history.contents) + [ParseAlert(text, time)]
      ensures paths.contents == Analyse(old(paths.contents), ParseAlert(text, time))
    {
      var alert := ParseHijackAlert(text, time);
      SaveHijackAlert(alert);
      AnalyseHijackAlert(paths, alert);
    }
  }
}
