/**
 The semi-join filter cascade of Query 5: five linear passes, each keeping
 the rows whose foreign key lies in the key set of the previous pass.

 Every pass is a fold over a prefix of its table, so that the last row is
 the last one the program's loop visits. Where the program records a value
 per key (`m[k] = v` inside the loop) a later qualifying row overwrites an
 earlier one; the contracts below say exactly which row wins.
 */
module Cascade {
  import opened Tables
  import Lex

  // ---------------------------------------------------------------------
  // Pass 1: regions whose name equals the requested one
  // ---------------------------------------------------------------------

  function RegionKeys(regions: seq<Region>, rName: string): (r: set<Key>)
    ensures r == set g | g in regions && g.name == rName :: g.key
  {
    if |regions| == 0 then {}
    else
      var prev := RegionKeys(regions[..|regions| - 1], rName);
      var g := regions[|regions| - 1];
      assert regions == regions[..|regions| - 1] + [g];
      if g.name == rName then prev + {g.key} else prev
  }

  /** Some region row carries the requested name. */
  predicate RegionExists(regions: seq<Region>, rName: string)
  {
    exists g :: g in regions && g.name == rName
  }

  /** Pass 1 finds a key exactly when some region row carries the requested name. */
  lemma RegionFound(regions: seq<Region>, rName: string)
    ensures RegionKeys(regions, rName) != {} <==> RegionExists(regions, rName)
  {
    if RegionExists(regions, rName) {
      var g :| g in regions && g.name == rName;
      assert g.key in RegionKeys(regions, rName);
    }
  }

  // ---------------------------------------------------------------------
  // Pass 2: nations in those regions, with their names
  // ---------------------------------------------------------------------

  datatype NationIndex = NationIndex(keys: set<Key>, names: map<Key, string>)

  predicate NationSelected(n: Nation, regionKeys: set<Key>)
  {
    n.regionKey in regionKeys
  }

  /** `v` is the name written for key `k` by the last selected nation row with that key. */
  ghost predicate LastNationName(nations: seq<Nation>, regionKeys: set<Key>, k: Key, v: string)
  {
    exists i :: 0 <= i < |nations| && nations[i].key == k && NationSelected(nations[i], regionKeys)
      && nations[i].name == v
      && forall j :: i < j < |nations| ==> !(nations[j].key == k && NationSelected(nations[j], regionKeys))
  }

  function NationPass(nations: seq<Nation>, regionKeys: set<Key>): (r: NationIndex)
    ensures r.keys == set n | n in nations && NationSelected(n, regionKeys) :: n.key
    ensures r.names.Keys == r.keys
  {
    if |nations| == 0 then NationIndex({}, map[])
    else
      var prev := NationPass(nations[..|nations| - 1], regionKeys);
      var n := nations[|nations| - 1];
      assert nations == nations[..|nations| - 1] + [n];
      if NationSelected(n, regionKeys) then
        NationIndex(prev.keys + {n.key}, prev.names[n.key := n.name])
      else
        prev
  }

  /** A key recorded from a prefix keeps its value when a row with another key, or an unselected row, follows. */
  lemma LastNationNameExtends(init: seq<Nation>, n: Nation, regionKeys: set<Key>, k: Key, v: string)
    requires LastNationName(init, regionKeys, k, v)
    requires !(n.key == k && NationSelected(n, regionKeys))
    ensures LastNationName(init + [n], regionKeys, k, v)
  {
    var i :| 0 <= i < |init| && init[i].key == k && NationSelected(init[i], regionKeys) && init[i].name == v
      && forall j :: i < j < |init| ==> !(init[j].key == k && NationSelected(init[j], regionKeys));
    assert (init + [n])[i] == init[i];
  }

  /** The name recorded for each nation key is the one of the last selected row with that key. */
  lemma {:induction false} NationNamesLastWins(nations: seq<Nation>, regionKeys: set<Key>)
    ensures forall k :: k in NationPass(nations, regionKeys).names ==>
      LastNationName(nations, regionKeys, k, NationPass(nations, regionKeys).names[k])
  {
    if |nations| > 0 {
      var init := nations[..|nations| - 1];
      var n := nations[|nations| - 1];
      assert nations == init + [n];
      NationNamesLastWins(init, regionKeys);
      var prev := NationPass(init, regionKeys);
      var r := NationPass(nations, regionKeys);
      forall k | k in r.names
        ensures LastNationName(nations, regionKeys, k, r.names[k])
      {
        if k == n.key && NationSelected(n, regionKeys) {
          assert nations[|nations| - 1] == n;
        } else {
          LastNationNameExtends(init, n, regionKeys, k, prev.names[k]);
        }
      }
    }
  }

  /** Each recorded nation name comes from a selected nation row with that key. */
  lemma NationNameOrigin(nations: seq<Nation>, regionKeys: set<Key>, k: Key)
    requires k in NationPass(nations, regionKeys).names
    ensures exists n :: (n in nations && n.key == k && n.regionKey in regionKeys
      && n.name == NationPass(nations, regionKeys).names[k])
  {
    NationNamesLastWins(nations, regionKeys);
    var i :| 0 <= i < |nations| && nations[i].key == k && NationSelected(nations[i], regionKeys)
      && nations[i].name == NationPass(nations, regionKeys).names[k];
    assert nations[i] in nations;
  }

  // ---------------------------------------------------------------------
  // Pass 3: suppliers in those nations, with their nation keys
  // ---------------------------------------------------------------------

  datatype SupplierIndex = SupplierIndex(keys: set<Key>, nationOf: map<Key, Key>)

  predicate SupplierSelected(s: Supplier, nationKeys: set<Key>)
  {
    s.nationKey in nationKeys
  }

  /** `v` is the nation key written for supplier `k` by the last selected supplier row with that key. */
  ghost predicate LastSupplierNation(suppliers: seq<Supplier>, nationKeys: set<Key>, k: Key, v: Key)
  {
    exists i :: 0 <= i < |suppliers| && suppliers[i].key == k && SupplierSelected(suppliers[i], nationKeys)
      && suppliers[i].nationKey == v
      && forall j :: i < j < |suppliers| ==> !(suppliers[j].key == k && SupplierSelected(suppliers[j], nationKeys))
  }

  function SupplierPass(suppliers: seq<Supplier>, nationKeys: set<Key>): (r: SupplierIndex)
    ensures r.keys == set s | s in suppliers && SupplierSelected(s, nationKeys) :: s.key
    ensures r.nationOf.Keys == r.keys
    ensures forall k :: k in r.nationOf ==> r.nationOf[k] in nationKeys
  {
    if |suppliers| == 0 then SupplierIndex({}, map[])
    else
      var prev := SupplierPass(suppliers[..|suppliers| - 1], nationKeys);
      var s := suppliers[|suppliers| - 1];
      assert suppliers == suppliers[..|suppliers| - 1] + [s];
      if SupplierSelected(s, nationKeys) then
        SupplierIndex(prev.keys + {s.key}, prev.nationOf[s.key := s.nationKey])
      else
        prev
  }

  lemma LastSupplierNationExtends(init: seq<Supplier>, s: Supplier, nationKeys: set<Key>, k: Key, v: Key)
    requires LastSupplierNation(init, nationKeys, k, v)
    requires !(s.key == k && SupplierSelected(s, nationKeys))
    ensures LastSupplierNation(init + [s], nationKeys, k, v)
  {
    var i :| 0 <= i < |init| && init[i].key == k && SupplierSelected(init[i], nationKeys) && init[i].nationKey == v
      && forall j :: i < j < |init| ==> !(init[j].key == k && SupplierSelected(init[j], nationKeys));
    assert (init + [s])[i] == init[i];
  }

  /** The nation key recorded for each supplier is the one of the last selected row with that key. */
  lemma {:induction false} SupplierNationsLastWins(suppliers: seq<Supplier>, nationKeys: set<Key>)
    ensures forall k :: k in SupplierPass(suppliers, nationKeys).nationOf ==>
      LastSupplierNation(suppliers, nationKeys, k, SupplierPass(suppliers, nationKeys).nationOf[k])
  {
    if |suppliers| > 0 {
      var init := suppliers[..|suppliers| - 1];
      var s := suppliers[|suppliers| - 1];
      assert suppliers == init + [s];
      SupplierNationsLastWins(init, nationKeys);
      var prev := SupplierPass(init, nationKeys);
      var r := SupplierPass(suppliers, nationKeys);
      forall k | k in r.nationOf
        ensures LastSupplierNation(suppliers, nationKeys, k, r.nationOf[k])
      {
        if k == s.key && SupplierSelected(s, nationKeys) {
          assert suppliers[|suppliers| - 1] == s;
        } else {
          LastSupplierNationExtends(init, s, nationKeys, k, prev.nationOf[k]);
        }
      }
    }
  }

  /** Each recorded supplier nation comes from a selected supplier row with that key. */
  lemma SupplierNationOrigin(suppliers: seq<Supplier>, nationKeys: set<Key>, k: Key)
    requires k in SupplierPass(suppliers, nationKeys).nationOf
    ensures exists s :: s in suppliers && s.key == k && s.nationKey == SupplierPass(suppliers, nationKeys).nationOf[k]
  {
    SupplierNationsLastWins(suppliers, nationKeys);
    var i :| 0 <= i < |suppliers| && suppliers[i].key == k && SupplierSelected(suppliers[i], nationKeys)
      && suppliers[i].nationKey == SupplierPass(suppliers, nationKeys).nationOf[k];
    assert suppliers[i] in suppliers;
  }

  // ---------------------------------------------------------------------
  // Pass 4: customers in those nations
  // ---------------------------------------------------------------------

  function CustomerKeys(customers: seq<Customer>, nationKeys: set<Key>): (r: set<Key>)
    ensures r == set c | c in customers && c.nationKey in nationKeys :: c.key
  {
    if |customers| == 0 then {}
    else
      var prev := CustomerKeys(customers[..|customers| - 1], nationKeys);
      var c := customers[|customers| - 1];
      assert customers == customers[..|customers| - 1] + [c];
      if c.nationKey in nationKeys then prev + {c.key} else prev
  }

  // ---------------------------------------------------------------------
  // Pass 5: orders of those customers placed inside the date window
  // ---------------------------------------------------------------------

  predicate OrderSelected(o: Order, customerKeys: set<Key>, start: Date, end: Date)
  {
    o.custKey in customerKeys && Lex.InWindow(o.date, start, end)
  }

  function OrderKeys(orders: seq<Order>, customerKeys: set<Key>, start: Date, end: Date): (r: set<Key>)
    ensures r == set o | o in orders && OrderSelected(o, customerKeys, start, end) :: o.key
  {
    if |orders| == 0 then {}
    else
      var prev := OrderKeys(orders[..|orders| - 1], customerKeys, start, end);
      var o := orders[|orders| - 1];
      assert orders == orders[..|orders| - 1] + [o];
      if OrderSelected(o, customerKeys, start, end) then prev + {o.key} else prev
  }

  // ---------------------------------------------------------------------
  // The cascade as a whole
  // ---------------------------------------------------------------------

  /** Everything the lineitem scan reads: the key sets and the two lookup maps. */
  datatype Context = Context(
    nationKeys: set<Key>,
    nationNames: map<Key, string>,
    supplierKeys: set<Key>,
    supplierNation: map<Key, Key>,
    customerKeys: set<Key>,
    orderKeys: set<Key>)

  /**
   The shape the scan relies on: every selected supplier has a recorded
   nation key, and every recorded nation key has a recorded name.
   */
  predicate Resolvable(ctx: Context)
  {
    && ctx.supplierNation.Keys == ctx.supplierKeys
    && ctx.nationNames.Keys == ctx.nationKeys
    && forall s :: s in ctx.supplierNation ==> ctx.supplierNation[s] in ctx.nationKeys
  }

  /** Passes 2 to 5, run on the region keys of pass 1. */
  function Filter(db: Database, p: Params, regionKeys: set<Key>): (ctx: Context)
    ensures Resolvable(ctx)
    ensures ctx.nationKeys == set n | n in db.nations && n.regionKey in regionKeys :: n.key
    ensures ctx.supplierKeys == set s | s in db.suppliers && s.nationKey in ctx.nationKeys :: s.key
    ensures ctx.customerKeys == set c | c in db.customers && c.nationKey in ctx.nationKeys :: c.key
    ensures ctx.orderKeys == set o | o in db.orders && o.custKey in ctx.customerKeys
      && Lex.InWindow(o.date, p.startDate, p.endDate) :: o.key
  {
    var nations := NationPass(db.nations, regionKeys);
    var suppliers := SupplierPass(db.suppliers, nations.keys);
    var customerKeys := CustomerKeys(db.customers, nations.keys);
    var orderKeys := OrderKeys(db.orders, customerKeys, p.startDate, p.endDate);
    Context(nations.keys, nations.names, suppliers.keys, suppliers.nationOf, customerKeys, orderKeys)
  }
}
