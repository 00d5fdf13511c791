/**
 Static range partitioning of the lineitem scan.

 With `chunk = n / t` (integer division, `t` workers), worker `i` scans the
 index range `[i * chunk, (i + 1) * chunk)`, except the last worker, whose
 range runs to `n` and so absorbs the remainder.
 */
module Partition {

  function Chunk(n: nat, t: nat): nat
    requires t >= 1
  {
    n / t
  }

  /** First index scanned by worker `i`. */
  function Lo(i: nat, n: nat, t: nat): (lo: nat)
    requires i < t
    ensures lo <= n
    ensures i < t - 1 ==> lo + Chunk(n, t) <= n
  {
    MulMonotone(i, t - 1, Chunk(n, t));
    MulMonotone(i + 1, t, Chunk(n, t));
    ChunkTimesWorkers(n, t);
    i * Chunk(n, t)
  }

  /** One past the last index scanned by worker `i`. */
  function Hi(i: nat, n: nat, t: nat): (hi: nat)
    requires i < t
    ensures Lo(i, n, t) <= hi <= n
    ensures i < t - 1 ==> hi - Lo(i, n, t) == Chunk(n, t)
    ensures i == t - 1 ==> hi == n
  {
    if i == t - 1 then n else (i + 1) * Chunk(n, t)
  }

  lemma MulMonotone(a: nat, b: nat, c: nat)
    requires a <= b
    ensures a * c <= b * c
  {
    assert b * c == a * c + (b - a) * c;
  }

  lemma ChunkTimesWorkers(n: nat, t: nat)
    requires t >= 1
    ensures t * Chunk(n, t) <= n
  {
  }

  /** The ranges are contiguous: the first starts at 0, each starts where the previous one ends, the last ends at `n`. */
  lemma Contiguous(n: nat, t: nat)
    requires t >= 1
    ensures Lo(0, n, t) == 0
    ensures forall i :: 0 <= i < t - 1 ==> Hi(i, n, t) == Lo(i + 1, n, t)
    ensures Hi(t - 1, n, t) == n
  {
  }

  /** Ranges of distinct workers do not overlap. */
  lemma Disjoint(n: nat, t: nat, i: nat, k: nat)
    requires i < k < t
    ensures Hi(i, n, t) <= Lo(k, n, t)
  {
    MulMonotone(i + 1, k, Chunk(n, t));
  }

  /** The worker whose range holds index `j`. */
  function Owner(j: nat, n: nat, t: nat): (i: nat)
    requires t >= 1 && j < n
    ensures i < t
    ensures Lo(i, n, t) <= j < Hi(i, n, t)
  {
    var c := Chunk(n, t);
    if c == 0 then
      t - 1
    else
      var q := j / c;
      assert q * c <= j < (q + 1) * c;
      if q < t - 1 then q
      else
        MulMonotone(t - 1, q, c);
        t - 1
  }

  /** Every index of `[0, n)` lies in exactly one worker's range. */
  lemma ExactCover(n: nat, t: nat, j: nat, i: nat)
    requires t >= 1 && j < n && i < t
    ensures Lo(i, n, t) <= j < Hi(i, n, t) <==> i == Owner(j, n, t)
  {
    var o := Owner(j, n, t);
    if i < o {
      Disjoint(n, t, i, o);
    } else if o < i {
      Disjoint(n, t, o, i);
    }
  }
}
