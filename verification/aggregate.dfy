/**
 The per-worker revenue aggregation of the lineitem scan.

 A worker walks its index range of the lineitem table; a row is admitted
 when its order key and its supplier key were both kept by the cascade, is
 resolved to a nation name through the two lookup maps, and adds
 `price * (1 - discount)` to that nation's entry of the worker's private map.
 */
module Aggregate {
  import opened Tables
  import opened Cascade

  // ---------------------------------------------------------------------
  // Revenue maps
  // ---------------------------------------------------------------------

  /** The value of `m[k]` for a `std::map<std::string, double>`: absent entries read as zero. */
  function Get(m: Revenues, k: string): real
  {
    if k in m then m[k] else 0.0
  }

  /**
   Entry-wise sum of two revenue maps: an entry of either map is an entry of
   the sum. This is what adding every entry of `b` into `a` with `+=` yields.
   */
  function Plus(a: Revenues, b: Revenues): (r: Revenues)
    ensures r.Keys == a.Keys + b.Keys
    ensures forall k :: Get(r, k) == Get(a, k) + Get(b, k)
  {
    map k | k in a.Keys + b.Keys :: Get(a, k) + Get(b, k)
  }

  lemma MapsEqual(a: Revenues, b: Revenues)
    requires a.Keys == b.Keys
    requires forall k :: Get(a, k) == Get(b, k)
    ensures a == b
  {
    forall k | k in a
      ensures a[k] == b[k]
    {
      assert Get(a, k) == Get(b, k);
    }
  }

  lemma PlusEmpty(a: Revenues)
    ensures Plus(a, map[]) == a
    ensures Plus(map[], a) == a
  {
    MapsEqual(Plus(a, map[]), a);
    MapsEqual(Plus(map[], a), a);
  }

  lemma PlusAssociative(a: Revenues, b: Revenues, c: Revenues)
    ensures Plus(Plus(a, b), c) == Plus(a, Plus(b, c))
  {
    MapsEqual(Plus(Plus(a, b), c), Plus(a, Plus(b, c)));
  }

  // ---------------------------------------------------------------------
  // One lineitem
  // ---------------------------------------------------------------------

  /** `m[k]` on a `std::map<std::string, std::string>`: a missing key reads as the empty string. */
  function LookupOrEmpty(m: map<Key, string>, k: Key): string
  {
    if k in m then m[k] else ""
  }

  /** The two-sided semi-join test of a lineitem row. */
  predicate Admitted(li: Lineitem, ctx: Context): (r: bool)
    ensures r && Resolvable(ctx) ==> li.suppKey in ctx.supplierNation && ctx.supplierNation[li.suppKey] in ctx.nationNames
  {
    li.orderKey in ctx.orderKeys && li.suppKey in ctx.supplierKeys
  }

  /** Supplier key to nation key to nation name, through the two lookup maps. */
  function NationOf(li: Lineitem, ctx: Context): (r: string)
    ensures Resolvable(ctx) && li.suppKey in ctx.supplierKeys ==> r == ctx.nationNames[ctx.supplierNation[li.suppKey]]
    ensures r == "" || r in ctx.nationNames.Values
  {
    LookupOrEmpty(ctx.nationNames, LookupOrEmpty(ctx.supplierNation, li.suppKey))
  }

  /** The discounted price; with a discount in [0, 1] it lies between zero and the list price. */
  function Revenue(li: Lineitem): (r: real)
    ensures 0.0 <= li.discount <= 1.0 && 0.0 <= li.extendedPrice ==> 0.0 <= r <= li.extendedPrice
    ensures li.discount == 0.0 ==> r == li.extendedPrice
  {
    li.extendedPrice * (1.0 - li.discount)
  }

  /**
   For an admitted row both lookups find an entry: neither falls back to the
   empty string, so the scan never inserts into the shared lookup maps.
   */
  lemma LookupsHit(li: Lineitem, ctx: Context)
    requires Resolvable(ctx) && Admitted(li, ctx)
    ensures li.suppKey in ctx.supplierNation
    ensures ctx.supplierNation[li.suppKey] in ctx.nationNames
    ensures NationOf(li, ctx) == ctx.nationNames[ctx.supplierNation[li.suppKey]]
  {
  }

  /**
   One iteration of the worker's loop. A rejected row leaves the map as it
   is; an admitted row adds exactly its revenue to its nation's entry,
   creating the entry if needed, and leaves every other entry alone.
   */
  function Step(acc: Revenues, li: Lineitem, ctx: Context): (r: Revenues)
    ensures !Admitted(li, ctx) ==> r == acc
    ensures Admitted(li, ctx) ==> r.Keys == acc.Keys + {NationOf(li, ctx)}
    ensures Admitted(li, ctx) ==> Get(r, NationOf(li, ctx)) == Get(acc, NationOf(li, ctx)) + Revenue(li)
    ensures forall k :: k != NationOf(li, ctx) ==> Get(r, k) == Get(acc, k)
  {
    if Admitted(li, ctx) then
      var name := NationOf(li, ctx);
      acc[name := Get(acc, name) + Revenue(li)]
    else
      acc
  }

  /** The worker's loop from its first row, folding `Step` left to right; it never drops an entry. */
  function Scan(acc: Revenues, items: seq<Lineitem>, ctx: Context): (r: Revenues)
    ensures acc.Keys <= r.Keys
  {
    if |items| == 0 then acc
    else Step(Scan(acc, items[..|items| - 1], ctx), items[|items| - 1], ctx)
  }

  /** A worker's private map for the index range `[lo, hi)`: it starts empty. */
  function Worker(items: seq<Lineitem>, lo: nat, hi: nat, ctx: Context): (r: Revenues)
    requires lo <= hi <= |items|
    ensures r.Keys == Contributors(items[lo..hi], ctx)
    ensures forall n :: Get(r, n) == NationRevenue(items[lo..hi], ctx, n)
  {
    ScanMeaning(items[lo..hi], ctx);
    Scan(map[], items[lo..hi], ctx)
  }

  // ---------------------------------------------------------------------
  // Reference definition: revenue per nation as a sum over admitted rows
  // ---------------------------------------------------------------------

  /** Nation names reached by at least one admitted row. */
  function Contributors(items: seq<Lineitem>, ctx: Context): set<string>
  {
    set li | li in items && Admitted(li, ctx) :: NationOf(li, ctx)
  }

  /** What row `li` adds to nation `n`. */
  function Contribution(li: Lineitem, ctx: Context, n: string): real
  {
    if Admitted(li, ctx) && NationOf(li, ctx) == n then Revenue(li) else 0.0
  }

  /** Total revenue of the admitted rows that resolve to nation `n`. */
  function NationRevenue(items: seq<Lineitem>, ctx: Context, n: string): real
  {
    if |items| == 0 then 0.0
    else Contribution(items[0], ctx, n) + NationRevenue(items[1..], ctx, n)
  }

  lemma {:induction false} NationRevenueSnoc(items: seq<Lineitem>, li: Lineitem, ctx: Context, n: string)
    ensures NationRevenue(items + [li], ctx, n) == NationRevenue(items, ctx, n) + Contribution(li, ctx, n)
  {
    if |items| > 0 {
      assert (items + [li])[1..] == items[1..] + [li];
      NationRevenueSnoc(items[1..], li, ctx, n);
    }
  }

  /** A nation no admitted row reaches has zero revenue. */
  lemma {:induction false} NationRevenueOutside(items: seq<Lineitem>, ctx: Context, n: string)
    requires n !in Contributors(items, ctx)
    ensures NationRevenue(items, ctx, n) == 0.0
  {
    if |items| > 0 {
      assert Contributors(items[1..], ctx) <= Contributors(items, ctx);
      NationRevenueOutside(items[1..], ctx, n);
    }
  }

  /**
   The worker's map has an entry for exactly the nations some admitted row
   reaches (an entry is never created with nothing added to it), and each
   entry holds the sum of the revenues of the rows reaching that nation.
   */
  lemma {:induction false} ScanMeaning(items: seq<Lineitem>, ctx: Context)
    ensures Scan(map[], items, ctx).Keys == Contributors(items, ctx)
    ensures forall n :: Get(Scan(map[], items, ctx), n) == NationRevenue(items, ctx, n)
  {
    if |items| == 0 {
    } else {
      var init := items[..|items| - 1];
      var li := items[|items| - 1];
      assert items == init + [li];
      ScanMeaning(init, ctx);
      forall n
        ensures Get(Scan(map[], items, ctx), n) == NationRevenue(items, ctx, n)
      {
        NationRevenueSnoc(init, li, ctx, n);
      }
    }
  }

  // ---------------------------------------------------------------------
  // Splitting a scan
  // ---------------------------------------------------------------------

  /** Scanning `a + b` is scanning `a`, then continuing with `b`. */
  lemma {:induction false} ScanAppend(acc: Revenues, a: seq<Lineitem>, b: seq<Lineitem>, ctx: Context)
    ensures Scan(acc, a + b, ctx) == Scan(Scan(acc, a, ctx), b, ctx)
  {
    if |b| == 0 {
      assert a + b == a;
    } else {
      var init := b[..|b| - 1];
      assert (a + b)[..|a + b| - 1] == a + init;
      ScanAppend(acc, a, init, ctx);
    }
  }

  lemma StepAfterPlus(acc: Revenues, s: Revenues, li: Lineitem, ctx: Context)
    ensures Step(Plus(acc, s), li, ctx) == Plus(acc, Step(s, li, ctx))
  {
    MapsEqual(Step(Plus(acc, s), li, ctx), Plus(acc, Step(s, li, ctx)));
  }

  /** A scan from a non-empty map adds the scan from the empty map onto it. */
  lemma {:induction false} ScanFrom(acc: Revenues, items: seq<Lineitem>, ctx: Context)
    ensures Scan(acc, items, ctx) == Plus(acc, Scan(map[], items, ctx))
  {
    if |items| == 0 {
      PlusEmpty(acc);
    } else {
      var init := items[..|items| - 1];
      var li := items[|items| - 1];
      ScanFrom(acc, init, ctx);
      StepAfterPlus(acc, Scan(map[], init, ctx), li, ctx);
    }
  }

  /** Adding the scan of `[lo, hi)` onto the scan of `[0, lo)` gives the scan of `[0, hi)`. */
  lemma AdjacentRanges(items: seq<Lineitem>, lo: nat, hi: nat, ctx: Context)
    requires lo <= hi <= |items|
    ensures Plus(Scan(map[], items[..lo], ctx), Scan(map[], items[lo..hi], ctx)) == Scan(map[], items[..hi], ctx)
  {
    var before := Scan(map[], items[..lo], ctx);
    ScanFrom(before, items[lo..hi], ctx);
    ScanAppend(map[], items[..lo], items[lo..hi], ctx);
    assert items[..lo] + items[lo..hi] == items[..hi];
  }

  // ---------------------------------------------------------------------
  // The worker loop
  // ---------------------------------------------------------------------

  /**
   One worker: the loop over `[lo, hi)`, with the lookups done the way the
   program does them.
   */
  method RunWorker(items: seq<Lineitem>, lo: nat, hi: nat, ctx: Context) returns (local: Revenues)
    requires lo <= hi <= |items|
    ensures local == Worker(items, lo, hi, ctx)
    ensures local.Keys == Contributors(items[lo..hi], ctx)
    ensures forall n :: Get(local, n) == NationRevenue(items[lo..hi], ctx, n)
  {
    local := map[];
    var i := lo;
    while i < hi
      invariant lo <= i <= hi
      invariant local == Scan(map[], items[lo..i], ctx)
    {
      var item := items[i];
      ghost var before := local;
      if item.orderKey in ctx.orderKeys && item.suppKey in ctx.supplierKeys {
        var nationKey := LookupOrEmpty(ctx.supplierNation, item.suppKey);
        var nationName := LookupOrEmpty(ctx.nationNames, nationKey);
        var revenue := item.extendedPrice * (1.0 - item.discount);
        local := local[nationName := Get(local, nationName) + revenue];
        assert nationName == NationOf(item, ctx) && revenue == Revenue(item);
      }
      assert local == Step(before, item, ctx);
      assert items[lo..i + 1][..i - lo] == items[lo..i];
      assert items[lo..i + 1][i - lo] == item;
      i := i + 1;
    }
    ScanMeaning(items[lo..hi], ctx);
  }
}
