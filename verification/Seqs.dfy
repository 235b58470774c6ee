/** Elementary facts about sequences, stated once so that proofs can cite them. */
module Seqs {
  /** No element occurs twice. */
  ghost predicate Distinct<T>(s: seq<T>) {
    forall i, j :: 0 <= i < j < |s| ==> s[i] != s[j]
  }

  lemma HeadTail<T>(a: seq<T>, b: seq<T>)
    requires a != []
    ensures (a + b)[0] == a[0] && (a + b)[1..] == a[1..] + b
  {
  }

  lemma Assoc<T>(a: seq<T>, b: seq<T>, c: seq<T>)
    ensures (a + b) + c == a + (b + c)
  {
  }

  lemma NilLeft<T>(a: seq<T>)
    ensures [] + a == a
  {
  }

  lemma NilRight<T>(a: seq<T>)
    ensures a + [] == a
  {
  }

  lemma Cons<T>(x: T, a: seq<T>)
    ensures ([x] + a)[0] == x && ([x] + a)[1..] == a && |[x] + a| == |a| + 1
  {
  }

  lemma Snoc<T>(a: seq<T>, x: T)
    ensures |a + [x]| == |a| + 1 && (a + [x])[..|a|] == a && (a + [x])[|a|] == x
  {
  }

  lemma Uncons<T>(a: seq<T>)
    requires a != []
    ensures a == [a[0]] + a[1..]
  {
  }

  lemma Unsnoc<T>(a: seq<T>)
    requires a != []
    ensures a == a[..|a| - 1] + [a[|a| - 1]]
  {
  }

  lemma Halves<T>(a: seq<T>, k: nat)
    requires k <= |a|
    ensures a[..k] + a[k..] == a
  {
  }

  lemma Grow<T>(a: seq<T>, k: nat)
    requires k < |a|
    ensures a[..k + 1] == a[..k] + [a[k]]
    ensures a[k..] == [a[k]] + a[k + 1..]
    ensures a[k..][1..] == a[k + 1..]
  {
  }

  lemma Split<T>(a: seq<T>, b: seq<T>)
    ensures (a + b)[..|a|] == a && (a + b)[|a|..] == b
  {
  }

  lemma Middle<T>(a: seq<T>, i: nat, j: nat)
    requires i <= j <= |a|
    ensures a[i..] == a[i..j] + a[j..]
  {
  }

  lemma Whole<T>(a: seq<T>)
    ensures a[..|a|] == a && a[0..] == a
  {
  }

  function SetOf<T(==)>(xs: seq<T>): set<T> {
    set x | x in xs
  }

  lemma {:induction false} SubsetSize<T>(a: set<T>, b: set<T>)
    requires a <= b
    ensures |a| <= |b|
    ensures |a| == |b| ==> a == b
    decreases a
  {
    if a != {} {
      var x :| x in a;
      SubsetSize(a - {x}, b - {x});
    } else if |b| == 0 {
      assert b == {};
    }
  }

  lemma {:induction false} SizeOfSet<T>(xs: seq<T>)
    ensures |SetOf(xs)| <= |xs|
    ensures Distinct(xs) ==> |SetOf(xs)| == |xs|
  {
    if xs != [] {
      var n := |xs| - 1;
      SizeOfSet(xs[..n]);
      Unsnoc(xs);
      assert SetOf(xs) == SetOf(xs[..n]) + {xs[n]};
      if Distinct(xs) {
        assert xs[n] !in xs[..n];
      }
    }
  }

  /** The numbers from 0 up to n. */
  function Range(n: nat): (r: set<int>)
    ensures |r| == n && forall k :: k in r <==> 0 <= k < n
  {
    if n == 0 then {} else Range(n - 1) + {n - 1}
  }

  /** More numbers than there are values: one of them occurs twice. */
  lemma Pigeonhole(xs: seq<int>, n: nat)
    requires |xs| > n && forall k :: 0 <= k < |xs| ==> 0 <= xs[k] < n
    ensures !Distinct(xs)
  {
    if Distinct(xs) {
      SizeOfSet(xs);
      SubsetSize(SetOf(xs), Range(n));
    }
  }

  lemma TailOfUpdate<T>(s: seq<T>, i: nat, x: T)
    requires 0 < i < |s|
    ensures s[i := x][1..] == s[1..][i - 1 := x] && s[1..][i - 1] == s[i]
  {
  }
}
