/** Darshana's path mode: the similarity of each new AS path to the stored one. The
    comparison intersects the new list in place, so what is stored is not what was
    measured. */
module PathMonitor {
  import opened Seqs
  import opened Reals

  type As = string

  // ---------- specification ----------

  /** `retainAll`: the elements of `xs` that occur in `ys`, in their order. */
  function Retain(xs: seq<As>, ys: seq<As>): seq<As> {
    if xs == [] then []
    else if xs[|xs| - 1] in ys then Retain(xs[..|xs| - 1], ys) + [xs[|xs| - 1]]
    else Retain(xs[..|xs| - 1], ys)
  }

  /** The Sørensen coefficient; the quotient of two empty paths is not a number. */
  datatype Coefficient = NaN | Number(value: real)

  function Sorensen(common: nat, newSize: nat, oldSize: nat): Coefficient {
    if newSize + oldSize == 0 then NaN
    else Number(2.0 * common as real / (newSize + oldSize) as real)
  }

  /** Any comparison with NaN is false. */
  predicate Below(c: Coefficient, threshold: real) {
    c.Number? && c.value < threshold
  }

  /** The path stored after k probes that followed the first path. */
  function Stored(first: seq<As>, probes: seq<seq<As>>, k: nat): seq<As>
    requires k <= |probes|
  {
    if k == 0 then first else Retain(probes[k - 1], Stored(first, probes, k - 1))
  }

  /** The coefficient of the probe number k. */
  function CoefficientOf(first: seq<As>, probes: seq<seq<As>>, k: nat): Coefficient
    requires k < |probes|
  {
    Sorensen(|Stored(first, probes, k + 1)|, |probes[k]|, |Stored(first, probes, k)|)
  }

  // ---------- the implementation ----------

  /** A list of ASes, shared by reference. */
  class AsList {
    var items: seq<As>

    constructor (items: seq<As>)
      ensures this.items == items
    {
      this.items := items;
    }

    /** Keeps only what `other` also holds. */
    method RetainAll(other: AsList)
      requires other != this
      modifies this
      ensures items == Retain(old(items), other.items)
    {
      var kept := [];
      Whole(items);
      for i := 0 to |items|
        invariant items == old(items)
        invariant kept == Retain(items[..i], other.items)
      {
        Grow(items, i);
        Snoc(items[..i], items[i]);
        if items[i] in other.items {
          kept := kept + [items[i]];
        }
      }
      items := kept;
    }
  }

  class RouteMon {
    const pathThreshold: real
    var myPaths: seq<AsList>

    ghost predicate Valid()
      reads this
    {
      forall i, j :: 0 <= i < j < |myPaths| ==> myPaths[i] != myPaths[j]
    }

    constructor (pathThreshold: real)
      ensures Valid() && myPaths == [] && this.pathThreshold == pathThreshold
    {
      this.pathThreshold, myPaths := pathThreshold, [];
    }

    /** The last two stored paths compared; the last one is reduced to what they share. */
    method CalcSorensen() returns (c: Coefficient)
      requires Valid() && |myPaths| >= 2
      modifies myPaths[|myPaths| - 1]
      ensures myPaths[|myPaths| - 1].items
        == Retain(old(myPaths[|myPaths| - 1].items), old(myPaths[|myPaths| - 2].items))
      ensures c == Sorensen(|myPaths[|myPaths| - 1].items|, |old(myPaths[|myPaths| - 1].items)|,
        |old(myPaths[|myPaths| - 2].items)|)
    {
      var oldPath := myPaths[|myPaths| - 2];
      var path := myPaths[|myPaths| - 1];
      var oldPathSize := |oldPath.items|;
      var newPathSize := |path.items|;
      path.RetainAll(oldPath);
      var interPathSize := |path.items|;
      c := Sorensen(interPathSize, newPathSize, oldPathSize);
    }

    /** Path mode over a run of probes. */
    method MonitoringOnlyPath(first: seq<As>, probes: seq<seq<As>>) returns (alarms: seq<bool>)
      requires myPaths == []
      modifies this
      ensures |alarms| == |probes| && |myPaths| == |probes| + 1
      ensures forall k :: 0 <= k < |probes| ==> alarms[k] == Below(CoefficientOf(first, probes, k), pathThreshold)
      ensures myPaths[|probes|].items == Stored(first, probes, |probes|)
    {
      var initial := new AsList(first);
      myPaths := [initial];
      alarms := [];
      for k := 0 to |probes|
        invariant Valid() && |myPaths| == k + 1 && |alarms| == k
        invariant forall i :: 0 <= i <= k ==> fresh(myPaths[i])
        invariant myPaths[k].items == Stored(first, probes, k)
        invariant forall i :: 0 <= i < k ==> alarms[i] == Below(CoefficientOf(first, probes, i), pathThreshold)
      {
        var path := new AsList(probes[k]);
        myPaths := myPaths + [path];
        var c := CalcSorensen();
        alarms := alarms + [Below(c, pathThreshold)];
      }
    }
  }

  // ---------- sets of ASes ----------

  /** What is kept, in order: one more element is kept at the end if the other list has it. */
  lemma RetainGrows(xs: seq<As>, x: As, ys: seq<As>)
    ensures Retain([], ys) == []
    ensures Retain(xs + [x], ys) == if x in ys then Retain(xs, ys) + [x] else Retain(xs, ys)
  {
    Snoc(xs, x);
  }

  lemma {:induction false} RetainMembers(xs: seq<As>, ys: seq<As>, x: As)
    ensures x in Retain(xs, ys) <==> x in xs && x in ys
  {
    if xs != [] {
      Unsnoc(xs);
      RetainMembers(xs[..|xs| - 1], ys, x);
    }
  }

  lemma {:induction false} RetainKeepsDistinct(xs: seq<As>, ys: seq<As>)
    requires Distinct(xs)
    ensures Distinct(Retain(xs, ys))
  {
    if xs != [] {
      var n := |xs| - 1;
      RetainKeepsDistinct(xs[..n], ys);
      RetainMembers(xs[..n], ys, xs[n]);
      assert xs[n] !in xs[..n];
    }
  }

  lemma RetainIsIntersection(xs: seq<As>, ys: seq<As>)
    ensures SetOf(Retain(xs, ys)) == SetOf(xs) * SetOf(ys)
    ensures Distinct(xs) ==> Distinct(Retain(xs, ys))
  {
    forall x ensures x in Retain(xs, ys) <==> x in xs && x in ys {
      RetainMembers(xs, ys, x);
    }
    if Distinct(xs) {
      RetainKeepsDistinct(xs, ys);
    }
  }

  /** What the probes have in common with the first path. */
  ghost function Common(first: seq<As>, probes: seq<seq<As>>, k: nat): set<As>
    requires k <= |probes|
  {
    set x | x in first && forall j :: 0 <= j < k ==> x in probes[j]
  }

  ghost predicate AllPaths(first: seq<As>, probes: seq<seq<As>>) {
    Distinct(first) && forall j :: 0 <= j < |probes| ==> Distinct(probes[j])
  }

  /** The stored baseline is the first path intersected with every probe since: it can
      only shrink, and an AS that is missing once is lost for good. */
  lemma {:induction false} StoredIsIntersection(first: seq<As>, probes: seq<seq<As>>, k: nat)
    requires k <= |probes| && AllPaths(first, probes)
    ensures SetOf(Stored(first, probes, k)) == Common(first, probes, k)
    ensures Distinct(Stored(first, probes, k)) && |Stored(first, probes, k)| == |Common(first, probes, k)|
  {
    if k == 0 {
      assert SetOf(first) == Common(first, probes, 0);
    } else {
      StoredIsIntersection(first, probes, k - 1);
      RetainIsIntersection(probes[k - 1], Stored(first, probes, k - 1));
      CommonStep(first, probes, k - 1);
      assert SetOf(probes[k - 1]) * Common(first, probes, k - 1) == Common(first, probes, k);
    }
    SizeOfSet(Stored(first, probes, k));
  }

  lemma CommonStep(first: seq<As>, probes: seq<seq<As>>, k: nat)
    requires k < |probes|
    ensures Common(first, probes, k + 1) == Common(first, probes, k) * SetOf(probes[k])
  {
    forall x ensures x in Common(first, probes, k + 1) <==> x in Common(first, probes, k) * SetOf(probes[k]) {
      if x in Common(first, probes, k) && x in probes[k] {
        forall j | 0 <= j < k + 1 ensures x in probes[j] {
        }
      }
    }
  }

  lemma {:induction false} BaselinesShrink(first: seq<As>, probes: seq<seq<As>>, j: nat, k: nat)
    requires j <= k <= |probes|
    ensures Common(first, probes, k) <= Common(first, probes, j)
    ensures |Common(first, probes, k)| <= |Common(first, probes, j)|
  {
    SubsetSize(Common(first, probes, k), Common(first, probes, j));
  }

  // ---------- the coefficient ----------

  lemma QuotientInUnit(n: nat, d: nat)
    requires d > 0 && n <= d
    ensures 0.0 <= n as real / d as real <= 1.0
    ensures n as real / d as real == 1.0 <==> n == d
  {
    var rn, rd := n as real, d as real;
    var q := rn / rd;
    assert q * rd == rn;
    if q < 0.0 {
      var qd, zero := Scale(rd, q, 0.0);
      assert false;
    }
    if q < 1.0 {
      var qd, one := Scale(rd, q, 1.0);
      assert qd == rn && one == rd;
    } else {
      var one, qd := Scale(rd, 1.0, q);
      assert qd == rn && one == rd;
    }
  }

  /** The coefficient of two sets of ASes, not both empty. */
  lemma SorensenOfSets(a: set<As>, b: set<As>)
    requires a != {} || b != {}
    ensures Sorensen(|a * b|, |a|, |b|).Number?
    ensures 0.0 <= Sorensen(|a * b|, |a|, |b|).value <= 1.0
    ensures Sorensen(|a * b|, |a|, |b|).value == 1.0 <==> a == b
  {
    var n, d := 2 * |a * b|, |a| + |b|;
    SubsetSize(a * b, a);
    SubsetSize(a * b, b);
    assert d > 0;
    QuotientInUnit(n, d);
    assert n as real == 2.0 * |a * b| as real;
    if a == b {
      assert a * b == a;
    }
  }

  /** Every coefficient is between 0 and 1, and it is 1 exactly when the new path and the
      stored one have the same ASes. */
  lemma CoefficientMeaning(first: seq<As>, probes: seq<seq<As>>, k: nat)
    requires k < |probes| && AllPaths(first, probes)
    requires probes[k] != [] || Stored(first, probes, k) != []
    ensures CoefficientOf(first, probes, k).Number?
    ensures 0.0 <= CoefficientOf(first, probes, k).value <= 1.0
    ensures CoefficientOf(first, probes, k).value == 1.0 <==> SetOf(probes[k]) == SetOf(Stored(first, probes, k))
  {
    StoredIsIntersection(first, probes, k);
    StoredIsIntersection(first, probes, k + 1);
    CommonStep(first, probes, k);
    SizeOfSet(probes[k]);
    var new', old' := SetOf(probes[k]), SetOf(Stored(first, probes, k));
    assert Common(first, probes, k + 1) == new' * old' by {
      assert new' * old' == old' * new';
    }
    assert |new'| + |old'| > 0;
    SorensenOfSets(new', old');
  }

  // ---------- the verdict, exactly ----------

  /** The verdict without a division. */
  predicate TooFew(common: nat, sizes: nat, threshold: real) {
    2.0 * common as real < threshold * sizes as real
  }

  lemma BelowIsTooFew(common: nat, newSize: nat, oldSize: nat, threshold: real)
    requires newSize + oldSize == 0 ==> common == 0
    ensures Below(Sorensen(common, newSize, oldSize), threshold) <==> TooFew(common, newSize + oldSize, threshold)
  {
    var d := (newSize + oldSize) as real;
    if newSize + oldSize > 0 {
      var q := 2.0 * common as real / d;
      assert q * d == 2.0 * common as real;
      if q < threshold {
        var qd, td := Scale(d, q, threshold);
        assert qd == 2.0 * common as real && td == threshold * d;
      } else {
        var td, qd := Scale(d, threshold, q);
        assert qd == 2.0 * common as real && td == threshold * d;
      }
    }
  }

  lemma AlarmIsTooFew(first: seq<As>, probes: seq<seq<As>>, k: nat, threshold: real)
    requires k < |probes| && AllPaths(first, probes)
    ensures Below(CoefficientOf(first, probes, k), threshold)
      <==> TooFew(|Common(first, probes, k + 1)|, |probes[k]| + |Common(first, probes, k)|, threshold)
  {
    StoredIsIntersection(first, probes, k);
    StoredIsIntersection(first, probes, k + 1);
    BaselinesShrink(first, probes, k, k + 1);
    BelowIsTooFew(|Common(first, probes, k + 1)|, |probes[k]|, |Common(first, probes, k)|, threshold);
  }

  lemma ReturnIsTooFew(first: seq<As>, probes: seq<seq<As>>, k: nat, threshold: real)
    requires k < |probes| && AllPaths(first, probes) && probes[k] == first
    ensures var c := |Common(first, probes, k)|;
      Below(CoefficientOf(first, probes, k), threshold) <==> TooFew(c, |first| + c, threshold)
  {
    AlarmIsTooFew(first, probes, k, threshold);
    CommonStep(first, probes, k);
    assert Common(first, probes, k + 1) == Common(first, probes, k);
  }

  /** Every verdict, exactly: a probe alarms when what is still in common after it is too
      little for the sizes of the new path and of the stored one. */
  lemma VerdictExactly(first: seq<As>, probes: seq<seq<As>>, k: nat, threshold: real)
    requires k < |probes| && AllPaths(first, probes)
    ensures Below(CoefficientOf(first, probes, k), threshold)
      <==> 2.0 * |Common(first, probes, k + 1)| as real
             < threshold * (|probes[k]| + |Common(first, probes, k)|) as real
  {
    AlarmIsTooFew(first, probes, k, threshold);
  }

  /** Recovery, exactly: when the first path is measured again it still alarms if and only
      if too few of its ASes have been in all the paths since. */
  lemma RecoveryIff(first: seq<As>, probes: seq<seq<As>>, k: nat, threshold: real)
    requires k < |probes| && AllPaths(first, probes) && probes[k] == first
    ensures var c := |Common(first, probes, k)|;
      Below(CoefficientOf(first, probes, k), threshold) <==> 2.0 * c as real < threshold * (|first| + c) as real
  {
    ReturnIsTooFew(first, probes, k, threshold);
  }

  lemma FewerIsTooFew(few: nat, fewer: nat, size: nat, threshold: real)
    requires fewer <= few <= size && threshold >= 0.0 && TooFew(few, size + few, threshold)
    ensures TooFew(fewer, size + fewer, threshold)
  {
    var c, c', f := few as real, fewer as real, size as real;
    var tf, tc, tc' := threshold * f, threshold * c, threshold * c';
    assert threshold * (f + c) == tf + tc && threshold * (f + c') == tf + tc';
    assert (size + few) as real == f + c && (size + fewer) as real == f + c';
    if threshold <= 2.0 {
      var less, more := Scale(2.0 - threshold, c', c);
      assert less == 2.0 * c' - tc' && more == 2.0 * c - tc;
    } else {
      var twice, times := Scale(c', 2.0, threshold);
      assert twice == 2.0 * c' && times == tc';
      var p := Product(threshold, f);
      assert p == tf;
    }
  }

  /** Once a return to the first path has been reported, every later one is: the mode does
      not recover. */
  lemma StaysReported(first: seq<As>, probes: seq<seq<As>>, j: nat, k: nat, threshold: real)
    requires j <= k < |probes| && AllPaths(first, probes) && probes[j] == first && probes[k] == first
    requires threshold >= 0.0 && Below(CoefficientOf(first, probes, j), threshold)
    ensures Below(CoefficientOf(first, probes, k), threshold)
  {
    ReturnIsTooFew(first, probes, j, threshold);
    ReturnIsTooFew(first, probes, k, threshold);
    BaselinesShrink(first, probes, j, k);
    SizeOfSet(first);
    assert Common(first, probes, 0) == SetOf(first);
    BaselinesShrink(first, probes, 0, j);
    FewerIsTooFew(|Common(first, probes, j)|, |Common(first, probes, k)|, |first|, threshold);
  }

  /** The extreme case: with no AS left in common every later non-empty path alarms. */
  lemma NeverRecovers(first: seq<As>, probes: seq<seq<As>>, j: nat, k: nat, threshold: real)
    requires j <= k < |probes| && AllPaths(first, probes) && threshold > 0.0
    requires Common(first, probes, j) == {} && probes[k] != []
    ensures Below(CoefficientOf(first, probes, k), threshold)
  {
    AlarmIsTooFew(first, probes, k, threshold);
    BaselinesShrink(first, probes, j, k);
    BaselinesShrink(first, probes, j, k + 1);
    var p := Product(threshold, |probes[k]| as real);
  }
}
