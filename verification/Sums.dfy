/** Finite sums over sequences of integers, with the few laws the accounting proofs need. */
module Sums {

  ghost function Sum(s: seq<int>): int {
    if s == [] then 0 else Sum(s[..|s| - 1]) + s[|s| - 1]
  }

  /** The sum of the entries whose index lies in D. */
  ghost function SumIn(s: seq<int>, D: set<nat>): int {
    Sum(Mask(s, D))
  }

  ghost function Mask(s: seq<int>, D: set<nat>): (m: seq<int>)
    ensures |m| == |s|
  {
    seq(|s|, i requires 0 <= i < |s| => if i in D then s[i] else 0)
  }

  lemma SumAppend(s: seq<int>, x: int)
    ensures Sum(s + [x]) == Sum(s) + x
  {
    assert (s + [x])[..|s|] == s;
  }

  lemma {:induction false} SumUpdate(s: seq<int>, i: nat, v: int)
    requires i < |s|
    ensures Sum(s[i := v]) == Sum(s) - s[i] + v
  {
    var m := |s| - 1;
    if i == m {
      assert s[i := v][..m] == s[..m];
    } else {
      SumUpdate(s[..m], i, v);
      assert s[i := v][..m] == s[..m][i := v];
    }
  }

  lemma {:induction false} SumMonotone(a: seq<int>, b: seq<int>)
    requires |a| == |b| && forall i :: 0 <= i < |a| ==> a[i] <= b[i]
    ensures Sum(a) <= Sum(b)
  {
    if a != [] { SumMonotone(a[..|a| - 1], b[..|a| - 1]); }
  }

  lemma {:induction false} SumNonNegative(s: seq<int>)
    requires forall i :: 0 <= i < |s| ==> s[i] >= 0
    ensures Sum(s) >= 0
  {
    if s != [] { SumNonNegative(s[..|s| - 1]); }
  }

  lemma {:induction false} SumZero(s: seq<int>)
    requires forall i :: 0 <= i < |s| ==> s[i] == 0
    ensures Sum(s) == 0
  {
    if s != [] { SumZero(s[..|s| - 1]); }
  }

  lemma {:induction false} SumAtLeastEntry(s: seq<int>, i: nat)
    requires i < |s| && forall j :: 0 <= j < |s| ==> s[j] >= 0
    ensures s[i] <= Sum(s)
  {
    var m := |s| - 1;
    if i < m { SumAtLeastEntry(s[..m], i); } else { SumNonNegative(s[..m]); }
  }

  lemma {:induction false} SumPointwise(a: seq<int>, b: seq<int>, c: seq<int>)
    requires |a| == |b| == |c| && forall i :: 0 <= i < |a| ==> c[i] == a[i] + b[i]
    ensures Sum(c) == Sum(a) + Sum(b)
  {
    if a != [] {
      var m := |a| - 1;
      SumPointwise(a[..m], b[..m], c[..m]);
    }
  }

  ghost function RowSums(rows: seq<seq<int>>): (sums: seq<int>)
    ensures |sums| == |rows|
  {
    seq(|rows|, i requires 0 <= i < |rows| => Sum(rows[i]))
  }

  ghost function Column(rows: seq<seq<int>>, j: nat): (column: seq<int>)
    requires forall i :: 0 <= i < |rows| ==> j < |rows[i]|
    ensures |column| == |rows|
  {
    seq(|rows|, i requires 0 <= i < |rows| => rows[i][j])
  }

  ghost function ColumnSums(rows: seq<seq<int>>, n: nat): (sums: seq<int>)
    requires forall i :: 0 <= i < |rows| ==> |rows[i]| == n
    ensures |sums| == n
  {
    seq(n, j requires 0 <= j < n => Sum(Column(rows, j)))
  }

  /** A matrix sums to the same total by rows and by columns. */
  lemma {:induction false} SumSwap(rows: seq<seq<int>>, n: nat)
    requires forall i :: 0 <= i < |rows| ==> |rows[i]| == n
    ensures Sum(RowSums(rows)) == Sum(ColumnSums(rows, n))
  {
    if rows == [] {
      SumZero(ColumnSums(rows, n));
    } else {
      var m := |rows| - 1;
      SumSwap(rows[..m], n);
      assert RowSums(rows)[..m] == RowSums(rows[..m]);
      forall j | 0 <= j < n ensures ColumnSums(rows, n)[j] == ColumnSums(rows[..m], n)[j] + rows[m][j] {
        assert Column(rows, j)[..m] == Column(rows[..m], j);
      }
      SumPointwise(ColumnSums(rows[..m], n), rows[m], ColumnSums(rows, n));
    }
  }

  /** A set of indices and its complement split the sum. */
  lemma SumSplit(s: seq<int>, D: set<nat>, E: set<nat>)
    requires forall i :: 0 <= i < |s| ==> (i in D <==> i !in E)
    ensures Sum(s) == SumIn(s, D) + SumIn(s, E)
  {
    SumPointwise(Mask(s, D), Mask(s, E), s);
  }

  lemma SumInMonotone(s: seq<int>, D: set<nat>, E: set<nat>)
    requires forall i :: 0 <= i < |s| ==> s[i] >= 0 && (i in D ==> i in E)
    ensures SumIn(s, D) <= SumIn(s, E)
  {
    SumMonotone(Mask(s, D), Mask(s, E));
  }
}
