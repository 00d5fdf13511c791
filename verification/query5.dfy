/**
 TPC-H Query 5 as the program runs it: the filter cascade, the partitioned
 lineitem scan and the merge into the caller's result map.

 The program returns a success flag and updates its result map in place;
 here both come back together as an `Outcome`.
 */
module Query5 {
  import opened Tables
  import opened Cascade
  import opened Aggregate
  import opened Merge
  import Lex

  datatype Outcome = Outcome(ok: bool, results: Revenues)

  /** The key sets and lookup maps the scan reads, for these tables and parameters. */
  function Prepare(db: Database, p: Params): (ctx: Context)
    ensures Resolvable(ctx)
    ensures forall k :: k in ctx.orderKeys ==>
      exists o :: o in db.orders && o.key == k && Lex.InWindow(o.date, p.startDate, p.endDate)
  {
    Filter(db, p, RegionKeys(db.regions, p.regionName))
  }

  /**
   The query. When no region has the requested name it fails before any
   partitioning and leaves `results` as it was. Otherwise the worker count
   must be positive (the chunk size divides by it), and `results` receives
   one sequential scan of the whole lineitem table, whatever the worker count.
   */
  function Execute(p: Params, db: Database, results: Revenues): (out: Outcome)
    requires RegionExists(db.regions, p.regionName) ==> p.numThreads >= 1
    ensures out.ok <==> RegionExists(db.regions, p.regionName)
    ensures !out.ok ==> out.results == results
    ensures out.ok ==> out.results == Plus(results, Scan(map[], db.lineitems, Prepare(db, p)))
  {
    var regionKeys := RegionKeys(db.regions, p.regionName);
    RegionFound(db.regions, p.regionName);
    if regionKeys == {} then
      Outcome(false, results)
    else
      var ctx := Filter(db, p, regionKeys);
      var parts := Parts(db.lineitems, ctx, p.numThreads);
      PartitionedEqualsSequential(results, db.lineitems, ctx, p.numThreads);
      Outcome(true, MergeAll(results, parts))
  }

  /** Two runs that differ only in their (positive) worker count produce the same results. */
  lemma WorkerCountIrrelevant(p: Params, t1: int, t2: int, db: Database, results: Revenues)
    requires t1 >= 1 && t2 >= 1
    ensures Execute(p.(numThreads := t1), db, results) == Execute(p.(numThreads := t2), db, results)
  {
    assert Prepare(db, p.(numThreads := t1)) == Prepare(db, p.(numThreads := t2));
  }

  /**
   After a successful run, a nation has an entry exactly when it had one
   before or some admitted lineitem reaches it, and its value grew by the
   revenue of the admitted lineitems that reach it.
   */
  lemma ExecuteMeaning(p: Params, db: Database, results: Revenues)
    requires RegionExists(db.regions, p.regionName) && p.numThreads >= 1
    ensures Execute(p, db, results).results.Keys == results.Keys + Contributors(db.lineitems, Prepare(db, p))
    ensures forall n ::
      Get(Execute(p, db, results).results, n) == Get(results, n) + NationRevenue(db.lineitems, Prepare(db, p), n)
  {
    ScanMeaning(db.lineitems, Prepare(db, p));
  }

  /**
   An admitted lineitem belongs to an order placed inside the date window by
   a customer of a nation of the requested region.
   */
  lemma AdmittedOrderQualifies(p: Params, db: Database, li: Lineitem)
    requires Admitted(li, Prepare(db, p))
    ensures exists o, c, n :: (
      && o in db.orders && c in db.customers && n in db.nations
      && o.key == li.orderKey && Lex.InWindow(o.date, p.startDate, p.endDate)
      && c.key == o.custKey && c.nationKey == n.key
      && n.regionKey in RegionKeys(db.regions, p.regionName))
  {
    var regionKeys := RegionKeys(db.regions, p.regionName);
    var nationKeys := NationPass(db.nations, regionKeys).keys;
    var customerKeys := CustomerKeys(db.customers, nationKeys);
    assert li.orderKey in OrderKeys(db.orders, customerKeys, p.startDate, p.endDate);
    var o :| o in db.orders && o.key == li.orderKey && OrderSelected(o, customerKeys, p.startDate, p.endDate);
    var c :| c in db.customers && c.key == o.custKey && c.nationKey in nationKeys;
    var n :| n in db.nations && n.key == c.nationKey && NationSelected(n, regionKeys);
  }

  /**
   The nation an admitted lineitem is credited to is the name of a nation of
   the requested region, and a selected supplier row with the lineitem's
   supplier key belongs to that nation.
   */
  lemma AdmittedNationQualifies(p: Params, db: Database, li: Lineitem)
    requires Admitted(li, Prepare(db, p))
    ensures exists s, n :: (
      && s in db.suppliers && n in db.nations
      && s.key == li.suppKey && s.nationKey == n.key
      && n.regionKey in RegionKeys(db.regions, p.regionName)
      && n.name == NationOf(li, Prepare(db, p)))
  {
    var regionKeys := RegionKeys(db.regions, p.regionName);
    var nations := NationPass(db.nations, regionKeys);
    var ctx := Prepare(db, p);
    LookupsHit(li, ctx);
    var nk := ctx.supplierNation[li.suppKey];
    SupplierNationOrigin(db.suppliers, nations.keys, li.suppKey);
    NationNameOrigin(db.nations, regionKeys, nk);
  }

  // ---------------------------------------------------------------------
  // A worked example: one nation of one region, one qualifying lineitem
  // ---------------------------------------------------------------------

  function ExampleDb(orderDate: Date): Database
  {
    Database(
      [Customer("C1", "8")],
      [Order("O1", "C1", orderDate)],
      [Lineitem("O1", "S1", 1000.0, 0.10)],
      [Supplier("S1", "8")],
      [Nation("8", "INDIA", "2")],
      [Region("2", "ASIA")])
  }

  const ExampleParams := Params("ASIA", "1994-01-01", "1995-01-01", 2)

  const ExampleContext := Context({"8"}, map["8" := "INDIA"], {"S1"}, map["S1" := "8"], {"C1"}, {"O1"})

  lemma ExampleDateInside()
    ensures Lex.InWindow("1994-06-01", ExampleParams.startDate, ExampleParams.endDate)
  {
    var d, start, end := "1994-06-01", "1994-01-01", "1995-01-01";
    assert Lex.Less(d[3..], end[3..]);
    assert Lex.Less(d, end);
    assert Lex.Less(start[6..], d[6..]);
    assert Lex.Less(start, d);
    Lex.LessAsymmetric(start, d);
  }

  lemma ExamplePasses()
    ensures RegionKeys([Region("2", "ASIA")], "ASIA") == {"2"}
    ensures NationPass([Nation("8", "INDIA", "2")], {"2"}) == NationIndex({"8"}, map["8" := "INDIA"])
    ensures SupplierPass([Supplier("S1", "8")], {"8"}) == SupplierIndex({"S1"}, map["S1" := "8"])
    ensures CustomerKeys([Customer("C1", "8")], {"8"}) == {"C1"}
  {
  }

  lemma ExampleContextInside()
    ensures Prepare(ExampleDb("1994-06-01"), ExampleParams) == ExampleContext
  {
    ExampleDateInside();
    ExamplePasses();
    assert OrderKeys([Order("O1", "C1", "1994-06-01")], {"C1"}, "1994-01-01", "1995-01-01") == {"O1"};
  }

  lemma ExampleScanInside()
    ensures Contributors(ExampleDb("1994-06-01").lineitems, ExampleContext) == {"INDIA"}
    ensures NationRevenue(ExampleDb("1994-06-01").lineitems, ExampleContext, "INDIA") == 900.0
  {
    var li := Lineitem("O1", "S1", 1000.0, 0.10);
    assert Admitted(li, ExampleContext) && NationOf(li, ExampleContext) == "INDIA";
  }

  /** An order dated inside the window credits INDIA with 1000.00 * (1 - 0.10). */
  lemma ExampleInsideWindow()
    ensures Execute(ExampleParams, ExampleDb("1994-06-01"), map[]) == Outcome(true, map["INDIA" := 900.0])
  {
    var db := ExampleDb("1994-06-01");
    assert db.regions[0] in db.regions;
    ExampleContextInside();
    ExampleScanInside();
    ExecuteMeaning(ExampleParams, db, map[]);
    MapsEqual(Execute(ExampleParams, db, map[]).results, map["INDIA" := 900.0]);
  }

  lemma ExampleContextOnEnd()
    ensures Prepare(ExampleDb("1995-01-01"), ExampleParams) == ExampleContext.(orderKeys := {})
  {
    Lex.WindowExcludesEnd("1994-01-01", "1995-01-01");
    ExamplePasses();
    assert OrderKeys([Order("O1", "C1", "1995-01-01")], {"C1"}, "1994-01-01", "1995-01-01") == {};
  }

  /** An order dated on the end of the window is dropped, and INDIA gets no entry at all. */
  lemma ExampleOnWindowEnd()
    ensures Execute(ExampleParams, ExampleDb("1995-01-01"), map[]) == Outcome(true, map[])
  {
    var db := ExampleDb("1995-01-01");
    assert db.regions[0] in db.regions;
    ExampleContextOnEnd();
    assert !Admitted(db.lineitems[0], ExampleContext.(orderKeys := {}));
    assert Contributors(db.lineitems, ExampleContext.(orderKeys := {})) == {};
    ExecuteMeaning(ExampleParams, db, map[]);
  }
}
