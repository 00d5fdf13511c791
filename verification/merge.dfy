/**
 The merge step and the parallel scan as a whole.

 Every worker produces a private map for its range; the merge then adds
 each entry of each private map, in worker order, into the caller's result
 map. With exact arithmetic the outcome is one sequential scan of the whole
 lineitem table added onto the prior result map, whatever the worker count.
 */
module Merge {
  import opened Tables
  import opened Cascade
  import opened Aggregate
  import Partition

  /**
   The inner merge loop: every entry of `part` is added into `results` with
   `+=`, so a nation missing from `results` starts at zero.
   */
  method MergeInto(results: Revenues, part: Revenues) returns (r: Revenues)
    ensures r.Keys == results.Keys + part.Keys
    ensures forall n :: Get(r, n) == Get(results, n) + Get(part, n)
    ensures r == Plus(results, part)
  {
    r := results;
    var todo := part.Keys;
    while todo != {}
      invariant todo <= part.Keys
      invariant r.Keys == results.Keys + (part.Keys - todo)
      invariant forall n :: Get(r, n) == Get(results, n) + (if n in part && n !in todo then part[n] else 0.0)
      decreases todo
    {
      var nation :| nation in todo;
      r := r[nation := Get(r, nation) + part[nation]];
      todo := todo - {nation};
    }
    MapsEqual(r, Plus(results, part));
  }

  /** The outer merge loop: the private maps are added into `results` one after the other. */
  function MergeAll(results: Revenues, parts: seq<Revenues>): (r: Revenues)
    ensures forall n :: n in r <==> n in results || exists i :: 0 <= i < |parts| && n in parts[i]
  {
    if |parts| == 0 then results
    else Plus(MergeAll(results, parts[..|parts| - 1]), parts[|parts| - 1])
  }

  /** The private maps of the `t` workers over the lineitem table. */
  function Parts(items: seq<Lineitem>, ctx: Context, t: nat): (parts: seq<Revenues>)
    requires t >= 1
    ensures |parts| == t
    ensures forall i :: 0 <= i < t ==>
      parts[i].Keys == Contributors(items[Partition.Lo(i, |items|, t)..Partition.Hi(i, |items|, t)], ctx)
  {
    seq(t, i requires 0 <= i < t =>
      Worker(items, Partition.Lo(i, |items|, t), Partition.Hi(i, |items|, t), ctx))
  }

  /** Where the ranges of the first `k` workers end. */
  function Covered(n: nat, t: nat, k: nat): (e: nat)
    requires 1 <= t && k <= t
    ensures e <= n
  {
    if k == 0 then 0 else Partition.Hi(k - 1, n, t)
  }

  lemma PartAt(items: seq<Lineitem>, ctx: Context, t: nat, i: nat)
    requires i < t
    ensures Parts(items, ctx, t)[i] == Worker(items, Partition.Lo(i, |items|, t), Partition.Hi(i, |items|, t), ctx)
  {
  }

  lemma MergeAllPrefix(results: Revenues, parts: seq<Revenues>, k: nat)
    requires 1 <= k <= |parts|
    ensures MergeAll(results, parts[..k]) == Plus(MergeAll(results, parts[..k - 1]), parts[k - 1])
  {
    assert parts[..k][..k - 1] == parts[..k - 1];
  }

  lemma CoveredStep(n: nat, t: nat, k: nat)
    requires 1 <= k <= t
    ensures Covered(n, t, k - 1) == Partition.Lo(k - 1, n, t)
    ensures Covered(n, t, k) == Partition.Hi(k - 1, n, t)
  {
    if k > 1 {
      Partition.Contiguous(n, t);
    }
  }

  lemma {:induction false} MergePrefix(results: Revenues, items: seq<Lineitem>, ctx: Context, t: nat, k: nat)
    requires 1 <= t && k <= t
    ensures MergeAll(results, Parts(items, ctx, t)[..k])
      == Plus(results, Scan(map[], items[..Covered(|items|, t, k)], ctx))
  {
    var parts := Parts(items, ctx, t);
    if k == 0 {
      assert items[..0] == [];
      PlusEmpty(results);
    } else {
      MergePrefix(results, items, ctx, t, k - 1);
      var lo := Partition.Lo(k - 1, |items|, t);
      var hi := Partition.Hi(k - 1, |items|, t);
      CoveredStep(|items|, t, k);
      MergeAllPrefix(results, parts, k);
      PartAt(items, ctx, t, k - 1);
      var before := Scan(map[], items[..lo], ctx);
      var mine := Scan(map[], items[lo..hi], ctx);
      PlusAssociative(results, before, mine);
      AdjacentRanges(items, lo, hi, ctx);
    }
  }

  /**
   The partitioned scan followed by the merge adds exactly one sequential
   scan of the whole table onto the prior results, for every worker count.
   */
  lemma PartitionedEqualsSequential(results: Revenues, items: seq<Lineitem>, ctx: Context, t: nat)
    requires t >= 1
    ensures MergeAll(results, Parts(items, ctx, t)) == Plus(results, Scan(map[], items, ctx))
  {
    MergePrefix(results, items, ctx, t, t);
    assert Parts(items, ctx, t)[..t] == Parts(items, ctx, t);
    assert items[..|items|] == items;
  }
}
