/**
 * The priority order of one cycle's pending requests: a selection sort on the requesters'
 * consecutive-wait counts, largest first. Each round scans all entries and keeps the first
 * unused one with a strictly larger count, so equal counts keep their original order.
 */
module Ordering {

  predicate Distinct(u: seq<nat>) {
    forall a, b :: 0 <= a < b < |u| ==> u[a] != u[b]
  }

  predicate Below(u: seq<nat>, n: nat) {
    forall a :: 0 <= a < |u| ==> u[a] < n
  }

  /** No position before `j` is unused. */
  predicate AllUsedBelow(used: seq<nat>, j: nat) {
    forall x: nat :: x < j ==> x in used
  }

  /**
   * The inner scan of one selection round from position `j`, where `(maxPrio, maxInd)` is the
   * best unused entry met so far (`maxPrio` starts at -1, below every count).
   */
  function ScanBest(w: seq<nat>, used: seq<nat>, j: nat, maxPrio: int, maxInd: nat): nat
    requires j <= |w|
    decreases |w| - j
  {
    if j == |w| then maxInd
    else if w[j] > maxPrio && j !in used then ScanBest(w, used, j + 1, w[j], j)
    else ScanBest(w, used, j + 1, maxPrio, maxInd)
  }

  /** The entry one selection round picks. */
  function Pick(w: seq<nat>, used: seq<nat>): nat {
    ScanBest(w, used, 0, -1, 0)
  }

  lemma {:induction false} ScanBestIsFirstMax(w: seq<nat>, used: seq<nat>, j: nat, maxPrio: int, maxInd: nat)
    requires j <= |w| && maxPrio >= -1
    requires maxPrio == -1 ==> AllUsedBelow(used, j)
    requires maxPrio >= 0 ==>
      && maxInd < j && maxInd !in used && w[maxInd] == maxPrio
      && (forall x :: 0 <= x < j && x !in used ==> w[x] <= maxPrio)
      && (forall x :: 0 <= x < maxInd && x !in used ==> w[x] < maxPrio)
    requires exists x :: 0 <= x < |w| && x !in used
    ensures var m := ScanBest(w, used, j, maxPrio, maxInd);
      && m < |w| && m !in used
      && (forall x :: 0 <= x < |w| && x !in used ==> w[x] <= w[m])
      && (forall x :: 0 <= x < m && x !in used ==> w[x] < w[m])
    decreases |w| - j
  {
    if j == |w| {
      if maxPrio == -1 {
        assert false;
      }
    } else if w[j] > maxPrio && j !in used {
      ScanBestIsFirstMax(w, used, j + 1, w[j], j);
    } else {
      if maxPrio == -1 {
        assert j in used;
        assert AllUsedBelow(used, j + 1);
      }
      ScanBestIsFirstMax(w, used, j + 1, maxPrio, maxInd);
    }
  }

  /** While an entry is unused, a round picks the first unused entry of largest count. */
  lemma PickIsFirstMax(w: seq<nat>, used: seq<nat>)
    requires exists x :: 0 <= x < |w| && x !in used
    ensures var m := Pick(w, used);
      && m < |w| && m !in used
      && (forall x :: 0 <= x < |w| && x !in used ==> w[x] <= w[m])
      && (forall x :: 0 <= x < m && x !in used ==> w[x] < w[m])
  {
    ScanBestIsFirstMax(w, used, 0, -1, 0);
  }

  /** The positions below `n`. */
  function Upto(n: nat): (r: set<nat>)
    ensures |r| == n && forall x: nat :: x in r <==> x < n
  {
    if n == 0 then {} else Upto(n - 1) + {n - 1}
  }

  /** The entries of `u`. */
  function Elems(u: seq<nat>): set<nat> {
    set x: nat | x in u
  }

  lemma {:induction false} DistinctCard(u: seq<nat>)
    requires Distinct(u)
    ensures |Elems(u)| == |u|
  {
    if u != [] {
      var p := u[..|u| - 1];
      DistinctCard(p);
      assert Elems(u) == Elems(p) + {u[|u| - 1]};
    }
  }

  /** A list of distinct positions below `n` has at most `n` entries. */
  lemma DistinctBelowLength(u: seq<nat>, n: nat)
    requires Distinct(u) && Below(u, n)
    ensures |u| <= n
  {
    DistinctCard(u);
    var used, all := Elems(u), Upto(n);
    assert used <= all;
    assert all == used + (all - used);
    assert used !! (all - used);
  }

  /** Fewer than `n` distinct positions below `n` leave one unused. */
  lemma SomeUnused(u: seq<nat>, n: nat)
    requires Distinct(u) && Below(u, n) && |u| < n
    ensures exists x :: 0 <= x < n && x !in u
  {
    DistinctCard(u);
    var used, all := Elems(u), Upto(n);
    assert used <= all;
    assert |all - used| > 0;
    var x :| x in all - used;
  }

  /** The positions picked by the first `i` rounds, in the order they were picked. */
  function Selected(w: seq<nat>, i: nat): (u: seq<nat>)
    requires i <= |w|
    ensures |u| == i && Distinct(u) && Below(u, |w|)
  {
    if i == 0 then []
    else
      var u := Selected(w, i - 1);
      SomeUnused(u, |w|);
      PickIsFirstMax(w, u);
      u + [Pick(w, u)]
  }

  /** The positions of the pending requests in admission order: a permutation of the positions. */
  function Order(w: seq<nat>): (o: seq<nat>)
    ensures |o| == |w| && Distinct(o) && Below(o, |w|)
  {
    Selected(w, |w|)
  }

  /** The entries of `xs` at the positions `o`, in that order. */
  function Permute(xs: seq<nat>, o: seq<nat>): (r: seq<nat>)
    requires Below(o, |xs|)
    ensures |r| == |o| && forall k :: 0 <= k < |o| ==> r[k] == xs[o[k]]
  {
    seq(|o|, k requires 0 <= k < |o| => xs[o[k]])
  }

  lemma {:induction false} SelectedPrefix(w: seq<nat>, i: nat, j: nat)
    requires i <= j <= |w|
    ensures Selected(w, i) == Selected(w, j)[..i]
    decreases j - i
  {
    if i < j {
      SelectedPrefix(w, i, j - 1);
    }
  }

  /**
   * A request placed earlier has a count at least as large; with equal counts the earlier-placed
   * one came first among the pending requests.
   */
  lemma OrderSortedStable(w: seq<nat>, k: nat, k': nat)
    requires k < k' < |w|
    ensures w[Order(w)[k]] >= w[Order(w)[k']]
    ensures w[Order(w)[k]] == w[Order(w)[k']] ==> Order(w)[k] < Order(w)[k']
  {
    var o := Order(w);
    var u := Selected(w, k);
    SelectedPrefix(w, k, |w|);
    SelectedPrefix(w, k + 1, |w|);
    assert o[..k + 1] == Selected(w, k + 1) == u + [Pick(w, u)];
    assert o[k] == Pick(w, u);
    forall a | 0 <= a < |u| ensures u[a] != o[k'] {
      assert u[a] == o[a];
    }
    SomeUnused(u, |w|);
    PickIsFirstMax(w, u);
  }

  /** Rearranging distinct entries by distinct positions keeps them distinct. */
  lemma PermuteDistinct(xs: seq<nat>, o: seq<nat>)
    requires Distinct(xs) && Distinct(o) && Below(o, |xs|)
    ensures Distinct(Permute(xs, o))
  {
    var r := Permute(xs, o);
    forall a, b | 0 <= a < b < |r| ensures r[a] != r[b] {
      assert r[a] == xs[o[a]] && r[b] == xs[o[b]];
    }
  }

  /** Removing the entry at position `p`. */
  function RemoveAt(o: seq<nat>, p: nat): (r: seq<nat>)
    requires p < |o|
    ensures |r| == |o| - 1
    ensures forall k :: 0 <= k < p ==> r[k] == o[k]
    ensures forall k :: p <= k < |r| ==> r[k] == o[k + 1]
  {
    o[..p] + o[p + 1..]
  }

  /** Rearranging by a permutation of the positions keeps the same multiset of entries. */
  lemma {:induction false} PermuteMultiset(xs: seq<nat>, o: seq<nat>)
    requires |o| == |xs| && Distinct(o) && Below(o, |xs|)
    ensures multiset(Permute(xs, o)) == multiset(xs)
    decreases |xs|
  {
    var n := |xs|;
    if n > 0 {
      // The last position occurs somewhere in `o`.
      if n - 1 !in o {
        assert Below(o, n - 1);
        DistinctBelowLength(o, n - 1);
      }
      var p :| 0 <= p < n && o[p] == n - 1;
      var o' := RemoveAt(o, p);
      RemoveLast(o, n, p);
      var xs' := xs[..n - 1];
      PermuteMultiset(xs', o');
      var r := Permute(xs, o);
      PermuteRemoveAt(xs, o, p);
      MultisetRemoveAt(r, p);
      assert xs == xs' + [xs[n - 1]];
    }
  }

  /** Removing the position of the largest entry from distinct positions below `n` leaves distinct positions below `n - 1`. */
  lemma RemoveLast(o: seq<nat>, n: nat, p: nat)
    requires Distinct(o) && Below(o, n) && p < |o| && o[p] == n - 1
    ensures Distinct(RemoveAt(o, p)) && Below(RemoveAt(o, p), n - 1)
  {
    var o' := RemoveAt(o, p);
    forall a | 0 <= a < |o'| ensures o'[a] < n - 1 {
      if a < p { assert o'[a] == o[a]; } else { assert o'[a] == o[a + 1]; }
    }
  }

  /** Dropping the last entry and its position commutes with rearranging. */
  lemma PermuteRemoveAt(xs: seq<nat>, o: seq<nat>, p: nat)
    requires p < |o| && Below(o, |xs|) && o[p] == |xs| - 1 && Below(RemoveAt(o, p), |xs| - 1)
    ensures Permute(xs[..|xs| - 1], RemoveAt(o, p)) == RemoveAt(Permute(xs, o), p)
  {
  }

  /** Removing one entry removes it from the multiset. */
  lemma MultisetRemoveAt(r: seq<nat>, p: nat)
    requires p < |r|
    ensures multiset(r) == multiset(RemoveAt(r, p)) + multiset{r[p]}
  {
    assert r == r[..p] + [r[p]] + r[p + 1..];
  }

  /**
   * The selection sort over the pending requests `reqs`; `waits[j]` is the consecutive-wait count
   * of the task that issued `reqs[j]`.
   */
  method SortRequests(reqs: seq<nat>, waits: seq<nat>) returns (sorted: seq<nat>)
    requires |waits| == |reqs|
    ensures sorted == Permute(reqs, Order(waits))
    ensures multiset(sorted) == multiset(reqs)
  {
    sorted := [];
    var used: seq<nat> := [];
    var i := 0;
    while i < |reqs|
      invariant 0 <= i <= |reqs|
      invariant used == Selected(waits, i)
      invariant sorted == Permute(reqs, used)
    {
      var maxPrio: int := -1;
      var maxInd := 0;
      var j := 0;
      while j < |reqs|
        invariant 0 <= j <= |reqs|
        invariant ScanBest(waits, used, j, maxPrio, maxInd) == Pick(waits, used)
      {
        if waits[j] > maxPrio && j !in used {
          maxPrio := waits[j];
          maxInd := j;
        }
        j := j + 1;
      }
      SomeUnused(used, |waits|);
      PickIsFirstMax(waits, used);
      sorted := sorted + [reqs[maxInd]];
      used := used + [maxInd];
      i := i + 1;
    }
    PermuteMultiset(reqs, used);
  }
}
