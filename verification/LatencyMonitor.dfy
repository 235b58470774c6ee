/** Darshana's latency and hop-count modes: each sample is compared with the moving average
    of the samples before it. */
module LatencyMonitor {
  import opened MovingAverage
  import opened Reals
  import Seqs

  const ALPHA := 0.5

  /** The verdict on one value: the ratio to the baseline exceeds the threshold. */
  predicate Exceeds(threshold: real, newValue: real, oldValue: real)
    requires oldValue != 0.0
  {
    newValue / oldValue > threshold
  }

  ghost predicate Positive(xs: seq<real>) {
    forall i :: 0 <= i < |xs| ==> xs[i] > 0.0
  }

  /** The baseline for sample number k: the average of exactly the samples before it. */
  function Baseline(xs: seq<real>, k: nat): real
    requires 1 <= k <= |xs|
  {
    Ema(ALPHA, xs[..k])
  }

  lemma {:induction false} LeastIsPositive(xs: seq<real>) returns (lo: real, hi: real)
    requires xs != [] && Positive(xs)
    ensures lo > 0.0 && Within(xs, lo, hi)
  {
    if |xs| == 1 {
      lo, hi := xs[0], xs[0];
    } else {
      var n := |xs| - 1;
      lo, hi := LeastIsPositive(xs[..n]);
      var x := xs[n];
      lo, hi := if x < lo then x else lo, if x > hi then x else hi;
      assert forall i :: 0 <= i < n ==> xs[..n][i] == xs[i];
    }
  }

  lemma BaselinePositive(xs: seq<real>, k: nat)
    requires 1 <= k <= |xs| && Positive(xs)
    ensures Baseline(xs, k) > 0.0
  {
    var lo, hi := LeastIsPositive(xs[..k]);
    EmaWithin(ALPHA, xs[..k], lo, hi);
  }

  /** Whether sample number k alarms. */
  ghost predicate Alarms(threshold: real, xs: seq<real>, k: nat)
    requires 1 <= k < |xs| && Positive(xs)
  {
    BaselinePositive(xs, k);
    Exceeds(threshold, xs[k], Baseline(xs, k))
  }

  /** `alarms` holds the verdicts on samples 1 to n - 1. */
  ghost predicate Judged(alarms: seq<bool>, threshold: real, xs: seq<real>, n: nat)
    requires n <= |xs| && Positive(xs)
  {
    |alarms| == n - 1 && forall k :: 1 <= k < n ==> alarms[k - 1] == Alarms(threshold, xs, k)
  }

  lemma OneMoreVerdict(alarms: seq<bool>, v: bool, threshold: real, xs: seq<real>, n: nat)
    requires 1 <= n < |xs| && Positive(xs) && Judged(alarms, threshold, xs, n)
    requires v == Alarms(threshold, xs[..n + 1], n)
    ensures Judged(alarms + [v], threshold, xs, n + 1)
  {
    Seqs.Snoc(alarms, v);
    SamePrefix(threshold, xs, n);
    forall k | 1 <= k < n + 1 ensures (alarms + [v])[k - 1] == Alarms(threshold, xs, k) {
      if k < n {
        assert alarms[k - 1] == Alarms(threshold, xs, k);
      }
    }
  }

  class RouteMon {
    const latThreshold: real
    const hopThreshold: real
    var myLatencies: seq<real>
    var myHops: seq<real>
    /** Set when a trace did not reach the destination. */
    var methodTwo: bool
    const avRtt: ExponentialMovingAverage
    const avHopCount: ExponentialMovingAverage

    constructor (latThreshold: real, hopThreshold: real)
      ensures this.latThreshold == latThreshold && this.hopThreshold == hopThreshold
      ensures myLatencies == [] && myHops == [] && !methodTwo
      ensures fresh(avRtt) && avRtt.Valid() && avRtt.seen == [] && avRtt.alpha == ALPHA
      ensures fresh(avHopCount) && avHopCount.Valid() && avHopCount.seen == [] && avHopCount.alpha == ALPHA
      ensures avRtt != avHopCount
    {
      this.latThreshold, this.hopThreshold := latThreshold, hopThreshold;
      myLatencies, myHops, methodTwo := [], [], false;
      avRtt := new ExponentialMovingAverage(ALPHA);
      avHopCount := new ExponentialMovingAverage(ALPHA);
    }

    method ExecutePing(rtt: real)
      modifies `myLatencies
      ensures myLatencies == old(myLatencies) + [rtt]
    {
      myLatencies := myLatencies + [rtt];
    }

    /** Folds the last but one latency into the average and judges the last by it. */
    method RttMeasurement() returns (exceeded: bool)
      requires |myLatencies| >= 2 && Positive(myLatencies)
      requires avRtt.Valid() && avRtt.alpha == ALPHA && avRtt.seen == myLatencies[..|myLatencies| - 2]
      modifies avRtt
      ensures avRtt.Valid() && avRtt.seen == myLatencies[..|myLatencies| - 1]
      ensures exceeded == Alarms(latThreshold, myLatencies, |myLatencies| - 1)
    {
      var n := |myLatencies|;
      var oldRtt := avRtt.Average(myLatencies[n - 2]);
      var newRtt := myLatencies[n - 1];
      Seqs.Grow(myLatencies, n - 2);
      BaselinePositive(myLatencies, n - 1);
      exceeded := Exceeds(latThreshold, newRtt, oldRtt);
    }

    /** Latency mode over a run of probes: the verdict on each sample after the first is
        taken against the average of all samples before it, and of nothing else. */
    method MonitoringOnlyLat(samples: seq<real>) returns (alarms: seq<bool>)
      requires samples != [] && Positive(samples)
      requires avRtt.Valid() && avRtt.alpha == ALPHA && avRtt.seen == [] && myLatencies == []
      modifies `myLatencies, avRtt
      ensures myLatencies == samples && Judged(alarms, latThreshold, samples, |samples|)
    {
      alarms := [];
      ExecutePing(samples[0]);
      for k := 1 to |samples|
        invariant myLatencies == samples[..k]
        invariant avRtt.Valid() && avRtt.seen == samples[..k - 1]
        invariant Judged(alarms, latThreshold, samples, k)
      {
        ExecutePing(samples[k]);
        Seqs.Grow(samples, k);
        assert samples[..k + 1][..k - 1] == samples[..k - 1];
        assert samples[..k + 1][..k] == samples[..k];
        var exceeded := RttMeasurement();
        OneMoreVerdict(alarms, exceeded, latThreshold, samples, k);
        alarms := alarms + [exceeded];
      }
      Seqs.Whole(samples);
    }

    method ExecuteTrace(hops: real, incomplete: bool)
      requires avHopCount.Valid()
      modifies `myHops, `methodTwo, avHopCount
      ensures avHopCount.Valid() && avHopCount.seen == old(avHopCount.seen) + [hops]
      ensures myHops == old(myHops) + [hops] && methodTwo == (old(methodTwo) || incomplete)
    {
      if incomplete {
        methodTwo := true;
      }
      myHops := myHops + [hops];
      var _ := avHopCount.Average(myHops[|myHops| - 1]);
    }

    /** One hop count. After an incomplete trace nothing is measured and it always alarms. */
    method HopCountMeasurement(hops: real) returns (exceeded: bool)
      requires myHops != [] && Positive(myHops) && hops > 0.0
      requires avHopCount.Valid() && avHopCount.alpha == ALPHA
      requires avHopCount.seen == [myHops[0]] + myHops[..|myHops| - 1]
      modifies `myHops, avHopCount
      ensures avHopCount.Valid()
      ensures if methodTwo then exceeded && myHops == old(myHops) && avHopCount.seen == old(avHopCount.seen)
              else
                && myHops == old(myHops) + [hops] && avHopCount.seen == [myHops[0]] + myHops[..|myHops| - 1]
                && Positive(myHops) && exceeded == Alarms(hopThreshold, myHops, |myHops| - 1)
    {
      if methodTwo {
        return true;
      }
      myHops := myHops + [hops];
      var n := |myHops|;
      ghost var before := avHopCount.seen;
      var oldHopCount := avHopCount.Average(myHops[n - 2]);
      HopBaseline(myHops, before);
      BaselinePositive(myHops, n - 1);
      exceeded := Exceeds(hopThreshold, myHops[n - 1], oldHopCount);
    }

    /** Hop mode over a run of probes after a complete trace: the same verdicts as latency
        mode, although the first count enters the average twice. After an incomplete trace
        every probe alarms. */
    method MonitoringOnlyHop(samples: seq<real>, incomplete: bool) returns (alarms: seq<bool>)
      requires samples != [] && Positive(samples)
      requires avHopCount.Valid() && avHopCount.alpha == ALPHA && avHopCount.seen == [] && myHops == [] && !methodTwo
      modifies `myHops, `methodTwo, avHopCount
      ensures !incomplete ==> Judged(alarms, hopThreshold, samples, |samples|)
      ensures incomplete ==> |alarms| == |samples| - 1 && false !in alarms
    {
      alarms := [];
      ExecuteTrace(samples[0], incomplete);
      AfterFirst(samples);
      for k := 1 to |samples|
        invariant methodTwo == incomplete && avHopCount.Valid()
        invariant if incomplete then HopsAre(myHops, avHopCount.seen, samples, 1) && |alarms| == k - 1 && false !in alarms
                  else HopsAre(myHops, avHopCount.seen, samples, k) && Judged(alarms, hopThreshold, samples, k)
      {
        var exceeded := HopCountMeasurement(samples[k]);
        if !incomplete {
          Seqs.Grow(samples, k);
          OneMoreVerdict(alarms, exceeded, hopThreshold, samples, k);
        }
        alarms := alarms + [exceeded];
      }
    }
  }

  /** The hop counts are the first k samples; of them the average has seen the first twice
      and not yet the last. */
  ghost predicate HopsAre(hops: seq<real>, seen: seq<real>, samples: seq<real>, k: nat) {
    1 <= k <= |samples| && hops == samples[..k] && seen == [hops[0]] + hops[..k - 1]
  }

  lemma AfterFirst(samples: seq<real>)
    requires samples != []
    ensures HopsAre([] + [samples[0]], [] + [samples[0]], samples, 1)
  {
    assert samples[..1] == [samples[0]];
    assert [samples[0]][..0] == [];
  }

  /** The hop baseline, whose first value was averaged twice, is the ordinary one. */
  lemma HopBaseline(hops: seq<real>, before: seq<real>)
    requires |hops| >= 2 && before == [hops[0]] + hops[..|hops| - 2]
    ensures before + [hops[|hops| - 2]] == [hops[0]] + hops[..|hops| - 1]
    ensures Ema(ALPHA, before + [hops[|hops| - 2]]) == Baseline(hops, |hops| - 1)
  {
    var n := |hops|;
    Seqs.Grow(hops, n - 2);
    Seqs.Assoc([hops[0]], hops[..n - 2], [hops[n - 2]]);
    var rest := hops[1..n - 1];
    assert [hops[0]] + rest == hops[..n - 1];
    assert [hops[0]] + hops[..n - 1] == [hops[0], hops[0]] + rest;
    FirstTwice(ALPHA, hops[0], rest);
  }

  lemma SamePrefix(threshold: real, xs: seq<real>, k: nat)
    requires 1 <= k < |xs| && Positive(xs)
    ensures Positive(xs[..k + 1])
    ensures Alarms(threshold, xs[..k + 1], k) == Alarms(threshold, xs, k)
  {
    assert xs[..k + 1][..k] == xs[..k];
  }

  // ---------- when verdicts alarm ----------

  lemma RatioIsComparison(threshold: real, x: real, base: real)
    requires base > 0.0
    ensures Exceeds(threshold, x, base) <==> x > threshold * base
  {
    var q := x / base;
    assert q * base == x;
    if q > threshold {
      var tb, qb := Scale(base, threshold, q);
      assert qb == x && tb == threshold * base;
    } else {
      var qb, tb := Scale(base, q, threshold);
      assert qb == x && tb == threshold * base;
    }
  }

  /** Whatever the history, a sample above threshold times its maximum always alarms, and
      one at or below threshold times its minimum never does. */
  lemma VerdictBounds(threshold: real, xs: seq<real>, k: nat, lo: real, hi: real)
    requires 1 <= k < |xs| && Positive(xs) && threshold >= 0.0 && Within(xs[..k], lo, hi)
    ensures xs[k] > threshold * hi ==> Alarms(threshold, xs, k)
    ensures xs[k] <= threshold * lo ==> !Alarms(threshold, xs, k)
  {
    var base := Baseline(xs, k);
    EmaWithin(ALPHA, xs[..k], lo, hi);
    BaselinePositive(xs, k);
    RatioIsComparison(threshold, xs[k], base);
    var _, _ := Scale(threshold, base, hi);
    var _, _ := Scale(threshold, lo, base);
  }

  // ---------- a permanent increase ----------

  /** n samples equal to a, then m equal to b. */
  function Shifted(a: real, b: real, n: nat, m: nat): seq<real> {
    Repeat(a, n) + Repeat(b, m)
  }

  /** Does the m-th sample after a shift from a to b alarm? */
  ghost predicate ShiftAlarms(threshold: real, a: real, b: real, n: nat, m: nat)
    requires n >= 1 && m >= 1 && a > 0.0 && b > 0.0
  {
    Alarms(threshold, Shifted(a, b, n, m), n + m - 1)
  }

  lemma ShiftBaseline(a: real, b: real, n: nat, m: nat)
    requires n >= 1 && m >= 1
    ensures Baseline(Shifted(a, b, n, m), n + m - 1) == b - Halved(b - a, m - 1)
  {
    assert Shifted(a, b, n, m)[..n + m - 1] == Shifted(a, b, n, m - 1);
    EmaOfShift(a, b, n, m - 1);
  }

  /** The exact baseline of the m-th sample after a shift, whatever n. */
  lemma ShiftBaselineExact(a: real, b: real, n: nat, m: nat)
    requires n >= 1 && m >= 1
    ensures Baseline(Shifted(a, b, n, m), n + m - 1) == b - (b - a) / Pow2(m - 1)
  {
    ShiftBaseline(a, b, n, m);
    HalvedIsQuotient(b - a, m - 1);
  }

  /** The exact verdict on that sample. */
  lemma ShiftVerdict(threshold: real, a: real, b: real, n: nat, m: nat)
    requires n >= 1 && m >= 1 && a > 0.0 && b > 0.0
    ensures b - Halved(b - a, m - 1) > 0.0
    ensures ShiftAlarms(threshold, a, b, n, m) <==> b > threshold * (b - Halved(b - a, m - 1))
  {
    var xs := Shifted(a, b, n, m);
    ShiftBaseline(a, b, n, m);
    BaselinePositive(xs, n + m - 1);
    RatioIsComparison(threshold, xs[n + m - 1], Baseline(xs, n + m - 1));
  }

  /** Alarms after an increase come as a prefix: one that is missing is the end of them. */
  lemma AlarmsArePrefix(threshold: real, a: real, b: real, n: nat, m: nat)
    requires n >= 1 && m >= 1 && b > a > 0.0 && threshold >= 0.0
    ensures ShiftAlarms(threshold, a, b, n, m + 1) ==> ShiftAlarms(threshold, a, b, n, m)
  {
    ShiftVerdict(threshold, a, b, n, m);
    ShiftVerdict(threshold, a, b, n, m + 1);
    HalvedShrinks(b - a, m - 1);
    var _, _ := Scale(threshold, b - Halved(b - a, m - 1), b - Halved(b - a, m));
  }

  /** With a threshold of at most 1 every sample after an increase alarms, for ever. */
  lemma LowThresholdNeverStops(threshold: real, a: real, b: real, n: nat, m: nat)
    requires n >= 1 && m >= 1 && b > a > 0.0 && threshold <= 1.0
    ensures ShiftAlarms(threshold, a, b, n, m)
  {
    ShiftVerdict(threshold, a, b, n, m);
    HalvedShrinks(b - a, m - 1);
    var base := b - Halved(b - a, m - 1);
    var tb, ob := Scale(base, threshold, 1.0);
    assert ob == base && tb == threshold * base;
  }

  /** With a threshold above 1 some sample no longer alarms. */
  lemma HighThresholdStops(threshold: real, a: real, b: real, n: nat) returns (m: nat)
    requires n >= 1 && b > a > 0.0 && threshold > 1.0
    ensures m >= 1 && !ShiftAlarms(threshold, a, b, n, m)
  {
    var d := Product(threshold, b - a);
    var room := Product(threshold - 1.0, b);
    var t := EnoughHalvings(d, room);
    m := t + 1;
    ShiftVerdict(threshold, a, b, n, m);
    HalvedScales(threshold, b - a, d, t);
    var tb, tg := threshold * b, threshold * Halved(b - a, t);
    assert room == tb - b && tg <= room;
    assert threshold * (b - Halved(b - a, t)) == tb - tg;
  }

  /** Halving gets below any positive bound. */
  lemma EnoughHalvings(d: real, room: real) returns (t: nat)
    requires d > 0.0 && room > 0.0
    ensures Halved(d, t) <= room
  {
    var need := d / room;
    assert need * room == d;
    t := if need <= 0.0 then 0 else need.Floor;
    Pow2Grows(t);
    HalvedIsQuotient(d, t);
    FitsIn(Halved(d, t), Pow2(t), d, need, room);
  }

  lemma FitsIn(h: real, p: real, d: real, need: real, room: real)
    requires h * p == d == need * room && p >= need && p > 0.0 && room > 0.0
    ensures h <= room
  {
    var rn, rp := Scale(room, need, p);
    assert p * room == rp && rn == d && p * h == d;
    if h > room {
      var _, _ := Scale(p, room, h);
    }
  }

  lemma {:induction false} HalvedScales(c: real, d: real, cd: real, t: nat)
    requires cd == c * d
    ensures Halved(cd, t) == c * Halved(d, t)
  {
    if t > 0 {
      HalvedScales(c, d, cd, t - 1);
    }
  }

  /** The samples that alarm after a shift are exactly the first `last`. */
  ghost predicate AlarmsExactlyUpTo(threshold: real, a: real, b: real, n: nat, last: nat)
    requires n >= 1 && a > 0.0 && b > 0.0
  {
    forall m: nat :: m >= 1 ==> (ShiftAlarms(threshold, a, b, n, m) <==> m <= last)
  }

  /** A permanent increase is reported for ever exactly when the threshold is at most 1;
      otherwise it is reported for a finite time, from the first sample on. */
  lemma ReportedForEverIff(threshold: real, a: real, b: real, n: nat)
    requires n >= 1 && b > a > 0.0 && threshold >= 0.0
    ensures (forall m: nat :: m >= 1 ==> ShiftAlarms(threshold, a, b, n, m)) <==> threshold <= 1.0
    ensures threshold > 1.0 ==> exists last: nat :: AlarmsExactlyUpTo(threshold, a, b, n, last)
  {
    if threshold <= 1.0 {
      forall m: nat | m >= 1 ensures ShiftAlarms(threshold, a, b, n, m) {
        LowThresholdNeverStops(threshold, a, b, n, m);
      }
    } else {
      var quiet := HighThresholdStops(threshold, a, b, n);
      var last := LastAlarm(threshold, a, b, n, quiet);
      assert AlarmsExactlyUpTo(threshold, a, b, n, last);
      assert !ShiftAlarms(threshold, a, b, n, last + 1);
    }
  }

  /** The alarms end: a sample is within the reported time exactly if it alarms. */
  lemma {:induction false} LastAlarm(threshold: real, a: real, b: real, n: nat, quiet: nat) returns (last: nat)
    requires n >= 1 && quiet >= 1 && b > a > 0.0 && threshold >= 0.0
    requires !ShiftAlarms(threshold, a, b, n, quiet)
    ensures AlarmsExactlyUpTo(threshold, a, b, n, last)
    decreases quiet
  {
    if quiet > 1 && !ShiftAlarms(threshold, a, b, n, quiet - 1) {
      last := LastAlarm(threshold, a, b, n, quiet - 1);
    } else {
      last := quiet - 1;
      forall m: nat | m >= 1 ensures ShiftAlarms(threshold, a, b, n, m) <==> m <= last {
        if m >= quiet {
          QuietAfter(threshold, a, b, n, quiet, m);
        } else {
          LoudBefore(threshold, a, b, n, m, quiet - 1);
        }
      }
    }
  }

  lemma {:induction false} QuietAfter(threshold: real, a: real, b: real, n: nat, quiet: nat, m: nat)
    requires n >= 1 && 1 <= quiet <= m && b > a > 0.0 && threshold >= 0.0
    requires !ShiftAlarms(threshold, a, b, n, quiet)
    ensures !ShiftAlarms(threshold, a, b, n, m)
  {
    if m > quiet {
      QuietAfter(threshold, a, b, n, quiet, m - 1);
      AlarmsArePrefix(threshold, a, b, n, m - 1);
    }
  }

  lemma {:induction false} LoudBefore(threshold: real, a: real, b: real, n: nat, m: nat, loud: nat)
    requires n >= 1 && 1 <= m <= loud && b > a > 0.0 && threshold >= 0.0
    requires ShiftAlarms(threshold, a, b, n, loud)
    ensures ShiftAlarms(threshold, a, b, n, m)
    decreases loud
  {
    if m < loud {
      AlarmsArePrefix(threshold, a, b, n, loud - 1);
      LoudBefore(threshold, a, b, n, m, loud - 1);
    }
  }
}
