/** Darshana's propagation mode: the latest round trip, less the largest other delay, is
    compared with the largest earlier round trip, less the smallest other delay. */
module PropagationMonitor {
  import opened Reals
  import opened Wrappers
  import Seqs

  /** One measurement: the round trip, and how it splits. */
  datatype Latencies = Latencies(rtt: real, prop: real, remain: real)

  /** The split is exact and some time is spent on the way. */
  predicate Split(m: Latencies) {
    m.rtt == m.prop + m.remain && m.prop > 0.0
  }

  // ---------- averaging a burst of pings ----------

  function Sum(ms: seq<Latencies>): Latencies {
    if ms == [] then Latencies(0.0, 0.0, 0.0) else
      var s, m := Sum(ms[..|ms| - 1]), ms[|ms| - 1];
      Latencies(s.rtt + m.rtt, s.prop + m.prop, s.remain + m.remain)
  }

  function Mean(ms: seq<Latencies>): Latencies
    requires ms != []
  {
    var s, n := Sum(ms), |ms| as real;
    Latencies(s.rtt / n, s.prop / n, s.remain / n)
  }

  /** The means of a burst of pings; `None` for the quotients by zero when none succeeded,
      which are not numbers. */
  method GetMeanMeasuresUpgraded(measures: seq<Latencies>) returns (mean: Option<Latencies>)
    ensures mean == if measures == [] then None else Some(Mean(measures))
  {
    var rttMean, propDelay, otherDelay := 0.0, 0.0, 0.0;
    for i := 0 to |measures|
      invariant Latencies(rttMean, propDelay, otherDelay) == Sum(measures[..i])
    {
      Seqs.Grow(measures, i);
      Seqs.Snoc(measures[..i], measures[i]);
      rttMean := rttMean + measures[i].rtt;
      propDelay := propDelay + measures[i].prop;
      otherDelay := otherDelay + measures[i].remain;
    }
    Seqs.Whole(measures);
    if |measures| == 0 {
      return None;
    }
    var n := |measures| as real;
    mean := Some(Latencies(rttMean / n, propDelay / n, otherDelay / n));
  }

  lemma {:induction false} SumSplits(ms: seq<Latencies>)
    requires forall i :: 0 <= i < |ms| ==> Split(ms[i])
    ensures Sum(ms).rtt == Sum(ms).prop + Sum(ms).remain
    ensures if ms == [] then Sum(ms).prop == 0.0 else Sum(ms).prop > 0.0
  {
    if ms != [] {
      SumSplits(ms[..|ms| - 1]);
      assert Split(ms[|ms| - 1]);
    }
  }

  /** What a mean is, component by component: one measurement is its own, and one more adds
      its share. */
  lemma MeanGrows(ms: seq<Latencies>, m: Latencies)
    ensures Mean([m]) == m
    ensures ms != [] ==>
      var n, before, after := |ms| as real, Mean(ms), Mean(ms + [m]);
      && after.rtt * (n + 1.0) == before.rtt * n + m.rtt
      && after.prop * (n + 1.0) == before.prop * n + m.prop
      && after.remain * (n + 1.0) == before.remain * n + m.remain
  {
    assert [m][..0] == [];
    assert Sum([m]) == m;
    Seqs.Snoc(ms, m);
  }

  /** Averaging keeps the split exact and the propagation positive. */
  lemma MeanSplits(ms: seq<Latencies>)
    requires ms != [] && forall i :: 0 <= i < |ms| ==> Split(ms[i])
    ensures Split(Mean(ms))
  {
    SumSplits(ms);
    var s, n := Sum(ms), |ms| as real;
    var p := s.prop / n;
    assert p * n == s.prop;
    if p <= 0.0 {
      var _, _ := Scale(n, p, 0.0);
    }
  }

  // ---------- the verdict ----------

  /** `a / b > threshold` on doubles, where dividing by zero gives an infinity or NaN. */
  predicate QuotientExceeds(a: real, b: real, threshold: real) {
    if b == 0.0 then a > 0.0 else a / b > threshold
  }

  /** The least of the first remaining delay and all non-zero ones. */
  ghost predicate IsMinOther(min: real, ms: seq<Latencies>, n: nat)
    requires 0 < |ms| && n <= |ms|
  {
    && min <= ms[0].remain
    && (forall i :: 0 <= i < n ==> ms[i].remain == 0.0 || min <= ms[i].remain)
    && (min == ms[0].remain || exists i :: 0 <= i < n && ms[i].remain != 0.0 && ms[i].remain == min)
  }

  method CalcMinOtherDelay(ms: seq<Latencies>) returns (min: real)
    requires ms != []
    ensures IsMinOther(min, ms, |ms|)
    ensures min <= ms[0].remain && forall i :: 0 <= i < |ms| && ms[i].remain != 0.0 ==> min <= ms[i].remain
    ensures min == ms[0].remain || exists i :: 0 <= i < |ms| && ms[i].remain != 0.0 && ms[i].remain == min
  {
    min := ms[0].remain;
    for i := 0 to |ms|
      invariant IsMinOther(min, ms, i)
    {
      if ms[i].remain != 0.0 && ms[i].remain < min {
        min := ms[i].remain;
      }
    }
  }

  function MaxRtt(ms: seq<Latencies>): (r: real)
    requires ms != []
    ensures forall i :: 0 <= i < |ms| ==> ms[i].rtt <= r
    ensures exists i :: 0 <= i < |ms| && ms[i].rtt == r
  {
    if |ms| == 1 then ms[0].rtt
    else var r, x := MaxRtt(ms[..|ms| - 1]), ms[|ms| - 1].rtt; if x > r then x else r
  }

  function MaxRemain(ms: seq<Latencies>): (r: real)
    requires ms != []
    ensures forall i :: 0 <= i < |ms| ==> ms[i].remain <= r
    ensures exists i :: 0 <= i < |ms| && ms[i].remain == r
  {
    if |ms| == 1 then ms[0].remain
    else var r, x := MaxRemain(ms[..|ms| - 1]), ms[|ms| - 1].remain; if x > r then x else r
  }

  /** What is left of the latest round trip without the largest other delay. */
  function PropDelayExp(ms: seq<Latencies>): real
    requires |ms| >= 2
  {
    ms[|ms| - 1].rtt - MaxRemain(ms)
  }

  /** What is left of the longest earlier round trip without the least other delay. */
  function MaxPropDelay(ms: seq<Latencies>, min: real): real
    requires |ms| >= 2
  {
    MaxRtt(ms[..|ms| - 1]) - min
  }

  predicate PropVerdict(ms: seq<Latencies>, min: real, threshold: real)
    requires |ms| >= 2
  {
    QuotientExceeds(PropDelayExp(ms), MaxPropDelay(ms, min), threshold)
  }

  /** The minimum is one number, so the verdict is determined by the measurements. */
  lemma MinOtherUnique(ms: seq<Latencies>, a: real, b: real)
    requires ms != [] && IsMinOther(a, ms, |ms|) && IsMinOther(b, ms, |ms|)
    ensures a == b
  {
    if a != ms[0].remain {
      var i :| 0 <= i < |ms| && ms[i].remain != 0.0 && ms[i].remain == a;
    }
    if b != ms[0].remain {
      var i :| 0 <= i < |ms| && ms[i].remain != 0.0 && ms[i].remain == b;
    }
  }

  method VerifyPropDelay(myLatencies: seq<Latencies>, threshold: real) returns (exceeded: bool)
    requires |myLatencies| >= 2
    ensures exists min ::
      (IsMinOther(min, myLatencies, |myLatencies|) && exceeded == PropVerdict(myLatencies, min, threshold))
    ensures forall min ::
      IsMinOther(min, myLatencies, |myLatencies|) ==> exceeded == PropVerdict(myLatencies, min, threshold)
  {
    var n := |myLatencies|;
    var anomalousRtt := myLatencies[n - 1].rtt;
    var maximumRtt := MaxRtt(myLatencies[..n - 1]);
    var minOtherDelay := CalcMinOtherDelay(myLatencies);
    var maxOtherDelay := MaxRemain(myLatencies);
    var propDelayExp := anomalousRtt - maxOtherDelay;
    var maxPropDelay := maximumRtt - minOtherDelay;
    exceeded := QuotientExceeds(propDelayExp, maxPropDelay, threshold);
    forall min | IsMinOther(min, myLatencies, n) ensures min == minOtherDelay {
      MinOtherUnique(myLatencies, min, minOtherDelay);
    }
  }

  /** The same test without a division. */
  predicate IsMoreThan(a: real, threshold: real, b: real) {
    a > threshold * b
  }

  lemma QuotientTest(a: real, b: real, threshold: real)
    requires b > 0.0
    ensures QuotientExceeds(a, b, threshold) <==> IsMoreThan(a, threshold, b)
  {
    var q := a / b;
    assert q * b == a;
    if q > threshold {
      var tb, qb := Scale(b, threshold, q);
      assert qb == a && tb == threshold * b;
    } else {
      var qb, tb := Scale(b, q, threshold);
      assert qb == a && tb == threshold * b;
    }
  }

  lemma QuotientAtMostOne(a: real, b: real, threshold: real)
    requires b > 0.0 && a <= b && threshold >= 1.0
    ensures !QuotientExceeds(a, b, threshold)
  {
    QuotientTest(a, b, threshold);
    var one, tb := Scale(b, 1.0, threshold);
    assert one == b && tb == threshold * b;
  }

  /** On exactly split measurements the longest earlier round trip exceeds every bound on
      the least other delay. */
  lemma DenominatorPositive(ms: seq<Latencies>, min: real)
    requires |ms| >= 2 && IsMinOther(min, ms, |ms|) && forall i :: 0 <= i < |ms| ==> Split(ms[i])
    ensures min <= MaxRemain(ms) && MaxPropDelay(ms, min) > 0.0
  {
    assert ms[..|ms| - 1][0] == ms[0] && Split(ms[0]);
  }

  /** On exactly split measurements the denominator is positive and the verdict is a
      comparison without division. */
  lemma VerdictExactly(ms: seq<Latencies>, min: real, threshold: real)
    requires |ms| >= 2 && IsMinOther(min, ms, |ms|) && forall i :: 0 <= i < |ms| ==> Split(ms[i])
    ensures min <= MaxRemain(ms) && MaxPropDelay(ms, min) > 0.0
    ensures PropVerdict(ms, min, threshold) <==>
      IsMoreThan(PropDelayExp(ms), threshold, MaxPropDelay(ms, min))
  {
    DenominatorPositive(ms, min);
    QuotientTest(PropDelayExp(ms), MaxPropDelay(ms, min), threshold);
  }

  /** No false alarm: a latest round trip that is no longer than an earlier one is never
      reported, for any threshold of at least 1. */
  lemma NoFalseAlarm(ms: seq<Latencies>, min: real, threshold: real)
    requires |ms| >= 2 && IsMinOther(min, ms, |ms|) && forall i :: 0 <= i < |ms| ==> Split(ms[i])
    requires ms[|ms| - 1].rtt <= MaxRtt(ms[..|ms| - 1]) && threshold >= 1.0
    ensures !PropVerdict(ms, min, threshold)
  {
    DenominatorPositive(ms, min);
    QuotientAtMostOne(PropDelayExp(ms), MaxPropDelay(ms, min), threshold);
  }

  // ---------- the verdict in terms of the measurements ----------

  /** The verdict on a list of measurements; there is one minimum only. */
  ghost predicate Reported(ms: seq<Latencies>, threshold: real)
    requires |ms| >= 2
  {
    exists min :: IsMinOther(min, ms, |ms|) && PropVerdict(ms, min, threshold)
  }

  /** Of the figures that go into the verdict, `longest` is the greatest round trip before
      the last, `most` the greatest other delay, and `least` the least of the first other
      delay and all that are not zero. */
  lemma Figures(ms: seq<Latencies>, longest: real, most: real, least: real)
    requires |ms| >= 2
    requires (exists i :: 0 <= i < |ms| - 1 && ms[i].rtt == longest)
    requires forall i :: 0 <= i < |ms| - 1 ==> ms[i].rtt <= longest
    requires (exists i :: 0 <= i < |ms| && ms[i].remain == most) && forall i :: 0 <= i < |ms| ==> ms[i].remain <= most
    requires least <= ms[0].remain && forall i :: 0 <= i < |ms| && ms[i].remain != 0.0 ==> least <= ms[i].remain
    requires least == ms[0].remain || exists i :: 0 <= i < |ms| && ms[i].remain != 0.0 && ms[i].remain == least
    ensures IsMinOther(least, ms, |ms|)
    ensures PropDelayExp(ms) == ms[|ms| - 1].rtt - most && MaxPropDelay(ms, least) == longest - least
  {
    var earlier := ms[..|ms| - 1];
    var i :| 0 <= i < |ms| - 1 && ms[i].rtt == longest;
    assert earlier[i].rtt == longest;
    assert forall k :: 0 <= k < |earlier| ==> earlier[k] == ms[k];
  }

  lemma ReportedIs(ms: seq<Latencies>, threshold: real, least: real)
    requires |ms| >= 2 && IsMinOther(least, ms, |ms|)
    ensures Reported(ms, threshold) <==> PropVerdict(ms, least, threshold)
  {
    forall min | IsMinOther(min, ms, |ms|) ensures min == least {
      MinOtherUnique(ms, min, least);
    }
  }

  /** The verdict is about two numbers only. */
  lemma ReportedFor(ms: seq<Latencies>, threshold: real, latest: real, before: real, least: real)
    requires |ms| >= 2 && IsMinOther(least, ms, |ms|)
    requires latest == PropDelayExp(ms) && before == MaxPropDelay(ms, least)
    ensures Reported(ms, threshold) <==> QuotientExceeds(latest, before, threshold)
  {
    ReportedIs(ms, threshold, least);
  }

  lemma QuotientMeans(latest: real, before: real, longest: real, least: real, threshold: real)
    requires before == longest - least && before > 0.0
    ensures QuotientExceeds(latest, before, threshold) <==> latest > threshold * (longest - least)
  {
    QuotientTest(latest, before, threshold);
    assert IsMoreThan(latest, threshold, before) <==> latest > threshold * before;
  }

  /** The verdict from these figures alone: the quotient exceeds the threshold, and on
      exactly split measurements that is a comparison without division. */
  lemma VerdictMeans(ms: seq<Latencies>, threshold: real, longest: real, most: real, least: real)
    requires |ms| >= 2
    requires (exists i :: 0 <= i < |ms| - 1 && ms[i].rtt == longest)
    requires forall i :: 0 <= i < |ms| - 1 ==> ms[i].rtt <= longest
    requires (exists i :: 0 <= i < |ms| && ms[i].remain == most) && forall i :: 0 <= i < |ms| ==> ms[i].remain <= most
    requires least <= ms[0].remain && forall i :: 0 <= i < |ms| && ms[i].remain != 0.0 ==> least <= ms[i].remain
    requires least == ms[0].remain || exists i :: 0 <= i < |ms| && ms[i].remain != 0.0 && ms[i].remain == least
    ensures longest != least ==>
      (Reported(ms, threshold) <==> (ms[|ms| - 1].rtt - most) / (longest - least) > threshold)
    ensures longest == least ==> (Reported(ms, threshold) <==> ms[|ms| - 1].rtt - most > 0.0)
    ensures (forall i :: 0 <= i < |ms| ==> ms[i].rtt == ms[i].prop + ms[i].remain && ms[i].prop > 0.0) ==>
      longest > least && (Reported(ms, threshold) <==> ms[|ms| - 1].rtt - most > threshold * (longest - least))
  {
    var latest, before := ms[|ms| - 1].rtt - most, longest - least;
    Figures(ms, longest, most, least);
    ReportedFor(ms, threshold, latest, before, least);
    if forall i :: 0 <= i < |ms| ==> ms[i].rtt == ms[i].prop + ms[i].remain && ms[i].prop > 0.0 {
      assert forall i :: 0 <= i < |ms| ==> Split(ms[i]);
      DenominatorPositive(ms, least);
      QuotientMeans(latest, before, longest, least, threshold);
    }
  }

  // ---------- a run ----------

  /** The means of the bursts so far. */
  function Means(bursts: seq<seq<Latencies>>): (ms: seq<Latencies>)
    requires forall i :: 0 <= i < |bursts| ==> bursts[i] != []
    ensures |ms| == |bursts| && forall i :: 0 <= i < |bursts| ==> ms[i] == Mean(bursts[i])
  {
    seq(|bursts|, i requires 0 <= i < |bursts| => Mean(bursts[i]))
  }

  /** The verdicts before each burst from the fourth to burst `n`. */
  ghost predicate Verdicts(alarms: seq<bool>, means: seq<Latencies>, n: nat, threshold: real)
    requires 3 <= n <= |means|
  {
    |alarms| == n - 3 && forall m :: 3 <= m < n ==> alarms[m - 3] == Reported(means[..m], threshold)
  }

  lemma OneMoreVerdict(alarms: seq<bool>, means: seq<Latencies>, n: nat, threshold: real, min: real, exceeded: bool)
    requires 3 <= n < |means| && Verdicts(alarms, means, n, threshold)
    requires IsMinOther(min, means[..n], n) && exceeded == PropVerdict(means[..n], min, threshold)
    ensures Verdicts(alarms + [exceeded], means, n + 1, threshold)
  {
    ReportedIs(means[..n], threshold, min);
  }

  class RouteMon {
    const propThreshold: real
    var myLatencies: seq<Latencies>

    constructor (propThreshold: real)
      ensures this.propThreshold == propThreshold && myLatencies == []
    {
      this.propThreshold, myLatencies := propThreshold, [];
    }

    /** One burst of pings, of which at least one has succeeded. */
    method ExecutePing(burst: seq<Latencies>)
      requires burst != []
      modifies this
      ensures myLatencies == old(myLatencies) + [Mean(burst)]
    {
      var mean := GetMeanMeasuresUpgraded(burst);
      myLatencies := myLatencies + [mean.value];
    }

    /** Propagation mode over a run of bursts: three to begin with, then a verdict before
        each of the others. */
    method MonitoringOnlyProp(bursts: seq<seq<Latencies>>) returns (alarms: seq<bool>)
      requires |bursts| >= 3 && forall i :: 0 <= i < |bursts| ==> bursts[i] != []
      requires myLatencies == []
      modifies this
      ensures |alarms| == |bursts| - 3 && myLatencies == Means(bursts)
      ensures forall m :: 3 <= m < |bursts| ==> alarms[m - 3] == Reported(Means(bursts)[..m], propThreshold)
    {
      alarms := [];
      ghost var means := Means(bursts);
      for i := 0 to 3
        invariant myLatencies == means[..i]
      {
        ExecutePing(bursts[i]);
        Seqs.Grow(means, i);
      }
      for m := 3 to |bursts|
        invariant myLatencies == means[..m] && Verdicts(alarms, means, m, propThreshold)
      {
        var exceeded := VerifyPropDelay(myLatencies, propThreshold);
        ghost var min :| IsMinOther(min, means[..m], m) && exceeded == PropVerdict(means[..m], min, propThreshold);
        OneMoreVerdict(alarms, means, m, propThreshold, min, exceeded);
        alarms := alarms + [exceeded];
        ExecutePing(bursts[m]);
        Seqs.Grow(means, m);
      }
      Seqs.Whole(means);
    }
  }

  /** Every successful ping splits exactly. */
  ghost predicate AllSplit(bursts: seq<seq<Latencies>>) {
    forall i :: 0 <= i < |bursts| ==> bursts[i] != [] && forall k :: 0 <= k < |bursts[i]| ==> Split(bursts[i][k])
  }

  /** The first n measurements end with a round trip that an earlier one has reached. */
  predicate NoNewMaximum(ms: seq<Latencies>, n: nat)
    requires 2 <= n <= |ms|
  {
    ms[n - 1].rtt <= MaxRtt(ms[..n - 1])
  }

  /** No false alarm in any run: an alarm comes only with a mean round trip that is longer
      than all before it. */
  lemma AlarmNeedsNewMaximum(bursts: seq<seq<Latencies>>, m: nat, threshold: real)
    requires 2 <= m <= |bursts| && AllSplit(bursts) && threshold >= 1.0
    requires Reported(Means(bursts)[..m], threshold)
    ensures !NoNewMaximum(Means(bursts), m)
  {
    var ms := Means(bursts)[..m];
    forall i | 0 <= i < m ensures Split(ms[i]) {
      MeanSplits(bursts[i]);
    }
    var min :| IsMinOther(min, ms, |ms|) && PropVerdict(ms, min, threshold);
    assert ms[..m - 1] == Means(bursts)[..m - 1];
    if NoNewMaximum(Means(bursts), m) {
      NoFalseAlarm(ms, min, threshold);
    }
  }
}
