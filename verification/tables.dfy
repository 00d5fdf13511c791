/**
 The six TPC-H tables read by Query 5, as typed records.

 The program loads every table as a sequence of rows, each row a map from
 column name to raw text. Here each table gets a record type holding only
 the columns the query reads: identifiers, names and dates stay text
 (`string`), the two numeric columns of a lineitem become exact `real`s.
 */
module Tables {

  /** Primary and foreign keys are compared as text, never as numbers. */
  type Key = string

  /** An order date: a fixed-width ISO calendar string such as "1994-01-01". */
  type Date = string

  datatype Region = Region(key: Key, name: string)

  datatype Nation = Nation(key: Key, name: string, regionKey: Key)

  datatype Supplier = Supplier(key: Key, nationKey: Key)

  datatype Customer = Customer(key: Key, nationKey: Key)

  datatype Order = Order(key: Key, custKey: Key, date: Date)

  datatype Lineitem = Lineitem(orderKey: Key, suppKey: Key, extendedPrice: real, discount: real)

  /** The whole read-only input of one query execution. */
  datatype Database = Database(
    customers: seq<Customer>,
    orders: seq<Order>,
    lineitems: seq<Lineitem>,
    suppliers: seq<Supplier>,
    nations: seq<Nation>,
    regions: seq<Region>)

  /** The query parameters: region name, half-open date window and worker count. */
  datatype Params = Params(regionName: string, startDate: Date, endDate: Date, numThreads: int)

  /** Revenue accumulated per nation name. */
  type Revenues = map<string, real>
}
