# TPC-H Query 5 engine, modelled in Dafny

This project models `executeQuery5`, the query engine of a small in-memory
implementation of TPC-H Query 5 (clause 2.4.5 of the TPC-H specification):
"for a region name and an order-date window, the revenue per nation of the
suppliers that served qualifying orders". The engine has three parts, and
the model keeps them apart:

- **Filter cascade** (`cascade.dfy`, module `Cascade`). Five linear passes
  build key sets: regions with the requested name; nations in those regions
  (with a key-to-name map); suppliers in those nations (with a
  supplier-to-nation map); customers in those nations; and orders of those
  customers whose date lies in `[start, end)`. The date test is
  `std::string` comparison, modelled in `lex.dfy` (module `Lex`).
- **Static range partitioning** (`partition.dfy`, module `Partition`). With
  `chunk = n / t`, worker `i` scans `[i * chunk, (i + 1) * chunk)` and the
  last worker runs to `n`.
- **Per-worker aggregation and merge** (`aggregate.dfy`, module
  `Aggregate`, and `merge.dfy`, module `Merge`). A lineitem is admitted when
  its order key and its supplier key are both in their sets. It is resolved
  to a nation name through the two maps, and `price * (1 - discount)` is
  added to the worker's private map. The private maps are then added entry
  by entry into the caller's result map.

`query5.dfy` (module `Query5`) puts the three together as `Execute`. The
program returns a flag and updates `results` in place; `Execute` returns
both in an `Outcome`. The main theorems are these:

- the ranges cover the table exactly;
- the lookups of the scan always find their entry;
- date filtering is half-open;
- the merged result is one sequential aggregate over the whole table added
  onto the prior `results`, so it does not depend on the worker count.

Rows are typed records (`tables.dfy`, module `Tables`) instead of the
program's maps from column name to text. Keys, names and dates stay
`string`; price and discount are exact `real`s. Threads are not modelled:
each worker is a pure function of its index range, and the merge is a fold
over the workers' maps in worker order.

On four points the code behaves differently from what a reader of the query
might expect, and the model follows the code:

- The code does not reject a worker count of zero or less. With a matching
  region, a count of zero divides by zero when the chunk size is computed
  (line 161), and a negative count makes the construction of the vector of
  private maps (line 159) throw before that. `Execute` therefore requires a
  positive worker count only when the region exists. When no region matches,
  the query fails for any worker count.
- The code does not surface a failed supplier or nation lookup as an error.
  It reads the lookup maps with `operator[]`, which would insert an empty
  string. `NationOf` models that default. `Aggregate.LookupsHit` and
  `Cascade.Filter` show that the default is never taken.
- The code adds into the caller's `results` map rather than producing a
  fresh map. `Execute` models exactly that.
- A nation that no admitted row reaches gets no entry at all, rather than an
  entry holding 0.

## Model

| member | source | states |
|---|---|---|
| Cascade.RegionKeys | tbch-query/src/query5.cpp:84-89 | the region key set is exactly the keys of the region rows whose name equals the requested name |
| Cascade.RegionFound | tbch-query/src/query5.cpp:84-94 | the region key set is non-empty iff some region row has the requested name, which is what the early failure tests |
| Cascade.NationPass | tbch-query/src/query5.cpp:96-104 | the nation key set is exactly the keys of nation rows whose region key was kept, and the name map's domain equals that set |
| Cascade.NationNamesLastWins | tbch-query/src/query5.cpp:99-104 | the name recorded for a nation key is the name of the last kept nation row with that key (later rows overwrite) |
| Cascade.NationNameOrigin | tbch-query/src/query5.cpp:99-104 | every recorded nation name is the name of a kept nation row with that key |
| Cascade.SupplierPass | tbch-query/src/query5.cpp:106-114 | the supplier key set is exactly the keys of supplier rows whose nation was kept, it equals the nation map's domain, and every mapped nation key is a kept nation key |
| Cascade.SupplierNationsLastWins | tbch-query/src/query5.cpp:109-114 | the nation key recorded for a supplier is the one of the last kept supplier row with that key |
| Cascade.SupplierNationOrigin | tbch-query/src/query5.cpp:109-114 | every recorded supplier nation comes from a supplier row with that supplier key |
| Cascade.CustomerKeys | tbch-query/src/query5.cpp:116-122 | the customer key set is exactly the keys of customer rows whose nation was kept |
| Cascade.OrderKeys | tbch-query/src/query5.cpp:124-134 | an order key is kept iff some order row with that key has a kept customer and a date `d` with `d >= start` and `d < end` |
| Cascade.Filter | tbch-query/src/query5.cpp:96-134 | the cascade's sets are the semi-joins above, the supplier map covers exactly the kept suppliers, and every mapped nation has a name |
| Lex.LessIffDiffersAt | tbch-query/src/query5.cpp:129-130 | string `<` holds iff the strings agree up to some position where the left one ends first or has the smaller character |
| Lex.LessIrreflexive | tbch-query/src/query5.cpp:129-130 | no string is below itself |
| Lex.LessTransitive | tbch-query/src/query5.cpp:129-130 | string `<` is transitive |
| Lex.LessTrichotomous | tbch-query/src/query5.cpp:129-130 | any two strings are equal or ordered one way or the other |
| Lex.LessAsymmetric | tbch-query/src/query5.cpp:129-130 | two strings are never below each other |
| Lex.WindowIncludesStart | tbch-query/src/query5.cpp:129-130 | a date equal to the start is kept exactly when start < end |
| Lex.WindowExcludesEnd | tbch-query/src/query5.cpp:129-130 | a date equal to the end is never kept |
| Lex.WindowBetween | tbch-query/src/query5.cpp:129-130 | a kept date is at or after the start and strictly before the end |
| Lex.Less | tbch-query/src/query5.cpp:129-130 | a proper prefix is below the longer string, and no string is below itself |
| Lex.InWindow | tbch-query/src/query5.cpp:128-130 | a kept date is never the end and is the start or above it; the start itself is kept iff start < end |
| Partition.Lo | tbch-query/src/query5.cpp:161-163 | a worker's first index lies within the table, and a non-last worker's full chunk fits |
| Partition.Hi | tbch-query/src/query5.cpp:161-164 | a worker's range is well formed; every range but the last has length `n / t`; the last ends at `n` |
| Partition.Contiguous | tbch-query/src/query5.cpp:161-166 | the first range starts at 0, each range starts where the previous ends, and the last ends at `n` |
| Partition.Disjoint | tbch-query/src/query5.cpp:161-166 | ranges of distinct workers do not overlap |
| Partition.Owner | tbch-query/src/query5.cpp:161-166 | every index of the table lies in the range of some worker |
| Partition.ExactCover | tbch-query/src/query5.cpp:161-166 | every index of the table lies in the range of exactly one worker |
| Aggregate.Plus | tbch-query/src/query5.cpp:172-174 | the entry-wise sum that `Merge.MergeInto`, the `+=` loop, is proved to compute: an entry for every key of either map, holding the sum, with absent entries read as zero |
| Aggregate.PlusEmpty | tbch-query/src/query5.cpp:172-174 | adding an empty map changes nothing |
| Aggregate.PlusAssociative | tbch-query/src/query5.cpp:171-175 | with exact arithmetic the grouping of the additions does not matter |
| Aggregate.Admitted | tbch-query/src/query5.cpp:144-148 | for a cascade whose maps are consistent, an admitted row's supplier has a nation entry, and that nation has a name entry |
| Aggregate.NationOf | tbch-query/src/query5.cpp:147-148 | for a kept supplier and consistent maps, the name is the direct two-step lookup; otherwise it is the empty-string default of `operator[]` or a recorded nation name |
| Aggregate.Revenue | tbch-query/src/query5.cpp:150-152 | with a discount in [0, 1] and a non-negative price, the revenue lies between zero and the price; with no discount it is the price |
| Aggregate.Scan | tbch-query/src/query5.cpp:138-155 | the loop never removes an entry from the map it starts from |
| Aggregate.Worker | tbch-query/src/query5.cpp:137-156 | a worker's private map for `[lo, hi)` is keyed by exactly the nations the admitted rows of the range reach, and each value is the reference revenue sum of the range |
| Aggregate.LookupsHit | tbch-query/src/query5.cpp:144-148 | for an admitted lineitem, both map lookups find an entry, so neither falls back to the empty string |
| Aggregate.Step | tbch-query/src/query5.cpp:141-154 | a rejected lineitem leaves the map unchanged; an admitted one adds exactly `price * (1 - discount)` to its nation's entry, creating it if needed, and changes no other entry |
| Aggregate.ScanMeaning | tbch-query/src/query5.cpp:137-156 | a worker's map has an entry for exactly the nations some admitted row reaches, each holding the sum of those rows' revenues |
| Aggregate.NationRevenueOutside | tbch-query/src/query5.cpp:154 | a nation that no admitted row reaches has revenue zero |
| Aggregate.ScanAppend | tbch-query/src/query5.cpp:138-155 | scanning two consecutive stretches is scanning the first, then continuing with the second |
| Aggregate.ScanFrom | tbch-query/src/query5.cpp:138-155 | a scan started from a non-empty map equals the scan from an empty map added onto it |
| Aggregate.AdjacentRanges | tbch-query/src/query5.cpp:138-175 | adding the map of `[lo, hi)` onto the map of `[0, lo)` gives the map of `[0, hi)` |
| Aggregate.RunWorker | tbch-query/src/query5.cpp:137-156 | the worker loop over `[lo, hi)` produces the map whose entries are the admitted nations of that range and whose values are their revenue sums |
| Merge.MergeInto | tbch-query/src/query5.cpp:172-174 | merging one private map gives every key of either map, each entry holding the prior value plus the private value; the loop's result equals `Plus(results, part)` |
| Merge.MergeAll | tbch-query/src/query5.cpp:171-175 | after merging all private maps, a nation has an entry iff it had one before or some private map has one |
| Merge.Parts | tbch-query/src/query5.cpp:159-166 | there is one private map per worker, and worker `i`'s map is keyed by exactly the nations the admitted rows of its range reach |
| Merge.MergePrefix | tbch-query/src/query5.cpp:159-175 | merging the maps of the first `k` workers adds the sequential scan of the rows those workers cover |
| Merge.PartitionedEqualsSequential | tbch-query/src/query5.cpp:159-175 | for every positive worker count, partitioned scan plus merge adds exactly one sequential scan of the whole table onto the prior results |
| Query5.Prepare | tbch-query/src/query5.cpp:83-134 | the cascade's maps are consistent (every kept supplier resolves to a named nation), and every kept order key comes from an order dated inside the window |
| Query5.Execute | tbch-query/src/query5.cpp:73-178 | the query succeeds iff a region has the requested name; on failure `results` is unchanged; on success it is the prior map plus the sequential aggregate |
| Query5.WorkerCountIrrelevant | tbch-query/src/query5.cpp:159-175 | two runs that differ only in a positive worker count give the same outcome |
| Query5.ExecuteMeaning | tbch-query/src/query5.cpp:137-175 | after success, a nation has an entry iff it had one before or an admitted lineitem reaches it, and its value grew by those lineitems' revenues |
| Query5.AdmittedOrderQualifies | tbch-query/src/query5.cpp:116-145 | an admitted lineitem's order is dated in the window and placed by a customer of a nation in the requested region |
| Query5.AdmittedNationQualifies | tbch-query/src/query5.cpp:97-148 | an admitted lineitem is credited to a nation of the requested region that a supplier row with its supplier key belongs to |
| Query5.ExampleInsideWindow | tbch-query/src/query5.cpp:73-178 | end to end, that example yields exactly one entry, INDIA with 900 |
| Query5.ExampleOnWindowEnd | tbch-query/src/query5.cpp:73-178 | end to end, that example succeeds with no entry at all for INDIA |

## Left out

- Command-line parsing (`parseArgs`), table loading (`loadTable`, `readTPCHData`) and the report writer (`outputResults`) are file and argument I/O and are not modelled. So are the two-decimal formatting and the ordered iteration of the report.
- Column lookup by name is not modelled: rows are typed records. The loader stores upper-case column names while the query reads lower-case ones, so `.at()` would throw; that mismatch is outside the model.
- Thread creation and `join` are not modelled. Each worker is a sequential call on its range, and the merge is a fold over the workers' maps in worker order.
- `double` arithmetic and `std::stod` parsing are not modelled: price and discount are exact reals. Rounding, and bit-for-bit agreement across worker counts, are out of scope. So are malformed numeric fields.
- The code uses `int` for the chunk size and range bounds. The model uses unbounded naturals, so it assumes the lineitem table has fewer than 2^31 rows.
- A negative worker count with a matching region (an invalid vector size in the code) and a zero worker count (a division by zero) are excluded by the precondition of `Execute`, not modelled as errors.
- `order_customer_map` is built by the order pass but never read, so it is not modelled.
- String order compares characters by code point. For the code's byte strings this is `std::char_traits<char>` order on UTF-8 text.
