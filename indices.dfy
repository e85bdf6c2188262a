/** Lists of positions: picking the elements at given positions, and the
    positions whose flag is set (Python's filtering comprehensions and
    `sum` over a list of booleans). */
module Indices {
  import opened Wrappers

  /** Strictly ascending indices. */
  predicate Ascending(xs: seq<nat>) {
    forall a, b :: 0 <= a < b < |xs| ==> xs[a] < xs[b]
  }

  /** `[xs[i] for i in idx]`. */
  function Pick<T>(xs: seq<T>, idx: seq<nat>): (r: seq<T>)
    requires forall k :: 0 <= k < |idx| ==> idx[k] < |xs|
    ensures |r| == |idx| && forall k :: 0 <= k < |idx| ==> r[k] == xs[idx[k]]
  {
    seq(|idx|, k requires 0 <= k < |idx| => xs[idx[k]])
  }

  lemma PickAppend<T>(xs: seq<T>, idx: seq<nat>, j: nat)
    requires IndicesBelow(idx, |xs|) && j < |xs|
    ensures Pick(xs, idx + [j]) == Pick(xs, idx) + [xs[j]]
  {
  }

  predicate IndicesBelow(idx: seq<nat>, n: nat) {
    forall k :: 0 <= k < |idx| ==> idx[k] < n
  }

  /** The positions below `n`, ascending, whose flag is `want`. */
  function RowsWhere(flags: seq<bool>, want: bool, n: nat): (r: seq<nat>)
    requires n <= |flags|
    ensures Ascending(r)
    ensures IndicesBelow(r, n)
    ensures forall i :: i in r <==> 0 <= i < n && flags[i] == want
  {
    if n == 0 then []
    else
      var front := RowsWhere(flags, want, n - 1);
      if flags[n - 1] == want then
        var r := front + [n - 1];
        assert forall i :: i in r <==> i in front || i == n - 1;
        r
      else front
  }

  lemma RowsWhereStep(flags: seq<bool>, want: bool, n: nat)
    requires n < |flags|
    ensures RowsWhere(flags, want, n + 1) == RowsWhere(flags, want, n) + (if flags[n] == want then [n] else [])
  {
  }

  lemma {:induction false} RowsWhereCount(flags: seq<bool>, n: nat)
    requires n <= |flags|
    ensures |RowsWhere(flags, false, n)| + |RowsWhere(flags, true, n)| == n
  {
    if n > 0 {
      RowsWhereCount(flags, n - 1);
    }
  }

  lemma NoneWanted(flags: seq<bool>, want: bool, n: nat)
    requires n <= |flags|
    ensures RowsWhere(flags, want, n) == [] <==> forall i :: 0 <= i < n ==> flags[i] != want
  {
    var r := RowsWhere(flags, want, n);
    if r != [] {
      assert r[0] in r;
    }
  }

  /** The positions of the set flags, ascending. */
  function TrueIndices(flags: seq<bool>): seq<nat> {
    RowsWhere(flags, true, |flags|)
  }

  /** `sum(flags)`: the number of set flags. */
  function Count(flags: seq<bool>): nat {
    |TrueIndices(flags)|
  }

  /** No flag is set exactly when the count is zero. */
  lemma CountZero(flags: seq<bool>)
    ensures Count(flags) == 0 <==> forall i :: 0 <= i < |flags| ==> !flags[i]
  {
    NoneWanted(flags, true, |flags|);
  }

  /** The count is one exactly when a single flag is set. */
  lemma CountOne(flags: seq<bool>)
    ensures Count(flags) == 1 <==> exists i :: 0 <= i < |flags| && flags[i] && forall j :: 0 <= j < |flags| && flags[j] ==> j == i
  {
    var r := TrueIndices(flags);
    if |r| == 1 {
      assert r[0] in r;
      forall j | 0 <= j < |flags| && flags[j]
        ensures j == r[0]
      {
        assert j in r;
      }
    }
    if exists i :: 0 <= i < |flags| && flags[i] && forall j :: 0 <= j < |flags| && flags[j] ==> j == i {
      var i :| 0 <= i < |flags| && flags[i] && forall j :: 0 <= j < |flags| && flags[j] ==> j == i;
      SingleFlagCount(flags, i, |flags|);
    }
  }

  lemma {:induction false} SingleFlagCount(flags: seq<bool>, i: nat, n: nat)
    requires i < |flags| && flags[i] && forall j :: 0 <= j < |flags| && flags[j] ==> j == i
    requires n <= |flags|
    ensures |RowsWhere(flags, true, n)| == if n > i then 1 else 0
  {
    if n > 0 {
      SingleFlagCount(flags, i, n - 1);
      RowsWhereStep(flags, true, n - 1);
    }
  }

  /** Setting more flags never lowers the count. */
  lemma CountMonotone(a: seq<bool>, b: seq<bool>)
    requires |a| == |b| && forall i :: 0 <= i < |a| ==> a[i] ==> b[i]
    ensures Count(a) <= Count(b)
  {
    PrefixCountMonotone(a, b, |a|);
  }

  lemma {:induction false} PrefixCountMonotone(a: seq<bool>, b: seq<bool>, n: nat)
    requires n <= |a| == |b| && forall i :: 0 <= i < |a| ==> a[i] ==> b[i]
    ensures |RowsWhere(a, true, n)| <= |RowsWhere(b, true, n)|
  {
    if n > 0 {
      PrefixCountMonotone(a, b, n - 1);
    }
  }

  /** The positions below `n` depend only on the first `n` flags. */
  lemma {:induction false} RowsWherePrefix(f1: seq<bool>, f2: seq<bool>, want: bool, n: nat)
    requires n <= |f1| && n <= |f2| && forall i :: 0 <= i < n ==> f1[i] == f2[i]
    ensures RowsWhere(f1, want, n) == RowsWhere(f2, want, n)
  {
    if n > 0 {
      RowsWherePrefix(f1, f2, want, n - 1);
    }
  }

  /** Appending a flag adds one to the count exactly when it is set. */
  lemma CountSnoc(xs: seq<bool>, y: bool)
    ensures Count(xs + [y]) == Count(xs) + (if y then 1 else 0)
  {
    RowsWherePrefix(xs + [y], xs, true, |xs|);
    RowsWhereStep(xs + [y], true, |xs|);
  }

  /** Counting the positions where both `a` and `b` hold is counting `b`
      over the positions where `a` holds: `sum(x[s] for s if p(s))` over all
      `s` equals the number of `p`-holders among the members of `x`. */
  lemma CountPicked(a: seq<bool>, b: seq<bool>, both: seq<bool>)
    requires |a| == |b| == |both|
    requires forall i :: 0 <= i < |a| ==> both[i] == (a[i] && b[i])
    ensures Count(both) == Count(Pick(b, TrueIndices(a)))
  {
    PrefixCountPicked(a, b, both, |a|);
  }

  lemma {:induction false} PrefixCountPicked(a: seq<bool>, b: seq<bool>, both: seq<bool>, n: nat)
    requires |a| == |b| == |both| && n <= |a|
    requires forall i :: 0 <= i < |a| ==> both[i] == (a[i] && b[i])
    ensures |RowsWhere(both, true, n)| == Count(Pick(b, RowsWhere(a, true, n)))
  {
    if n > 0 {
      PrefixCountPicked(a, b, both, n - 1);
      RowsWhereStep(both, true, n - 1);
      RowsWhereStep(a, true, n - 1);
      var idx := RowsWhere(a, true, n - 1);
      if a[n - 1] {
        PickAppend(b, idx, n - 1);
        CountSnoc(Pick(b, idx), b[n - 1]);
      }
    }
  }

  /** The first set flag at or after `from`, if any. */
  function FirstTrue(flags: seq<bool>, from: nat): (r: Option<nat>)
    requires from <= |flags|
    ensures r.None? <==> forall j :: from <= j < |flags| ==> !flags[j]
    ensures r.Some? ==> from <= r.value < |flags| && flags[r.value] && forall j :: from <= j < r.value ==> !flags[j]
    decreases |flags| - from
  {
    if from == |flags| then None
    else if flags[from] then Some(from)
    else FirstTrue(flags, from + 1)
  }
}
