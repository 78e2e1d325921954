/** Index-based filtering of sequences, the shape of JavaScript's
    `filter((x, index) => keep(index))`. */
module Seqs {

  predicate StrictlyIncreasing(ps: seq<nat>)
  {
    forall i, j :: 0 <= i < j < |ps| ==> ps[i] < ps[j]
  }

  /** The indices below `n` that are in `keep`, in ascending order. */
  function Positions(n: nat, keep: set<nat>): (ps: seq<nat>)
    ensures forall k :: 0 <= k < |ps| ==> ps[k] < n && ps[k] in keep
    ensures |ps| <= n
  {
    if n == 0 then []
    else Positions(n - 1, keep) + (if n - 1 in keep then [n - 1] else [])
  }

  /** The positions come in ascending order. */
  lemma {:induction false} PositionsSorted(n: nat, keep: set<nat>)
    ensures StrictlyIncreasing(Positions(n, keep))
  {
    if n > 0 {
      PositionsSorted(n - 1, keep);
      PositionsStep(n - 1, keep);
    }
  }

  /** Every kept index below `n` is among the positions. */
  lemma {:induction false} PositionsComplete(n: nat, keep: set<nat>)
    ensures forall i :: 0 <= i < n && i in keep ==> i in Positions(n, keep)
  {
    if n > 0 {
      PositionsComplete(n - 1, keep);
      PositionsStep(n - 1, keep);
    }
  }

  /** The elements of `xs` at the positions `ps`, in the order of `ps`. */
  function Pick<T>(xs: seq<T>, ps: seq<nat>): (r: seq<T>)
    requires forall k :: 0 <= k < |ps| ==> ps[k] < |xs|
    ensures |r| == |ps|
    ensures forall k :: 0 <= k < |ps| ==> r[k] == xs[ps[k]]
  {
    seq(|ps|, k requires 0 <= k < |ps| => xs[ps[k]])
  }

  /** Only the indices below `n` matter to `Positions`. */
  lemma {:induction false} PositionsAgree(n: nat, a: set<nat>, b: set<nat>)
    requires forall i :: 0 <= i < n ==> (i in a <==> i in b)
    ensures Positions(n, a) == Positions(n, b)
  {
    if n > 0 {
      PositionsAgree(n - 1, a, b);
    }
  }

  /** Keeping no index gives the empty sequence. */
  lemma PositionsOfNothing(n: nat, keep: set<nat>)
    requires forall i :: 0 <= i < n ==> i !in keep
    ensures Positions(n, keep) == []
  {}

  /** Keeping every index gives all of them. */
  lemma {:induction false} PositionsOfAll(n: nat, keep: set<nat>)
    requires forall i :: 0 <= i < n ==> i in keep
    ensures |Positions(n, keep)| == n
    ensures forall k :: 0 <= k < n ==> Positions(n, keep)[k] == k
  {
    if n > 0 {
      PositionsOfAll(n - 1, keep);
    }
  }

  lemma PositionsStep(n: nat, keep: set<nat>)
    ensures Positions(n + 1, keep) == Positions(n, keep) + (if n in keep then [n] else [])
  {}

  /** Keeping exactly the indices of an interval gives that interval. */
  lemma PositionsOfInterval(n: nat, keep: set<nat>, lo: nat, hi: nat)
    requires lo <= hi <= n
    requires forall i :: 0 <= i < n ==> (i in keep <==> lo <= i < hi)
    ensures |Positions(n, keep)| == hi - lo
    ensures forall k :: 0 <= k < hi - lo ==> Positions(n, keep)[k] == lo + k
  {
    PositionsAbove(n, keep, hi);
    PositionsUpTo(hi, keep, lo);
  }

  /** Indices from `hi` on that are not kept add nothing. */
  lemma {:induction false} PositionsAbove(n: nat, keep: set<nat>, hi: nat)
    requires hi <= n
    requires forall i :: hi <= i < n ==> i !in keep
    ensures Positions(n, keep) == Positions(hi, keep)
    decreases n
  {
    if n > hi {
      PositionsStep(n - 1, keep);
      PositionsAbove(n - 1, keep, hi);
    }
  }

  /** Keeping every index from `lo` up to `hi` and none below gives `lo .. hi - 1`. */
  lemma {:induction false} PositionsUpTo(hi: nat, keep: set<nat>, lo: nat)
    requires lo <= hi
    requires forall i :: 0 <= i < hi ==> (i in keep <==> lo <= i)
    ensures |Positions(hi, keep)| == hi - lo
    ensures forall k :: 0 <= k < hi - lo ==> Positions(hi, keep)[k] == lo + k
    decreases hi
  {
    if hi == lo {
      PositionsOfNothing(hi, keep);
    } else {
      PositionsStep(hi - 1, keep);
      PositionsUpTo(hi - 1, keep, lo);
      IntervalAppend(Positions(hi - 1, keep), lo, hi - 1);
    }
  }

  lemma IntervalAppend(ps: seq<nat>, lo: nat, x: nat)
    requires lo <= x && |ps| == x - lo
    requires forall k :: 0 <= k < |ps| ==> ps[k] == lo + k
    ensures |ps + [x]| == x + 1 - lo
    ensures forall k :: 0 <= k < |ps + [x]| ==> (ps + [x])[k] == lo + k
  {}

  /** In a strictly increasing sequence the elements from position `lo` on are
      the elements no smaller than the one at `lo`. */
  lemma SuffixMembers(ps: seq<nat>, lo: nat, x: nat)
    requires StrictlyIncreasing(ps) && lo < |ps|
    ensures x in ps[lo..] <==> x in ps && ps[lo] <= x
  {
    if x in ps && ps[lo] <= x {
      var k :| 0 <= k < |ps| && ps[k] == x;
      assert ps[lo..][k - lo] == x;
    }
  }
}
