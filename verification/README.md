# QALSH: projection indexes and search, modelled and proved in Dafny

QALSH answers nearest-neighbour queries from a set of one-dimensional projections.
Each projection table is a sorted run of (value, id) pairs; a query walks outward from
its own projection in every table, counts how often it meets each point, and evaluates
the true distance of the points it has met often enough.

This project models that machinery and proves that it does what it is for. Everything
rests on one specification: a table is a flat, strictly sorted sequence of entries whose
ids are a permutation of the point ids (`Tables`), and a cursor is two positions moving
outward in it (`FlatCursor`). The rest is shown to be a stand-in for simple operations on
that sequence.

- **Window cut** (`WindowClamp`): the four-lane block search and the binary search agree
  with a linear scan.
- **Flat layouts** (`ScanShares`, `ArrayIndexes`): how far one scan may go, and the
  in-memory and sorted-array scans, as methods over cursor objects, which equal the flat
  scan.
- **Sorted arrays as files** (`ArrayFile`, `SortedArrayOpen`): any bytes, magic number and
  parameter fields aside, open if and only if they are an index, and a written file opens
  to the tables put in.
- **Paged B+ tree**: what a page heap spells (`PageTree`, `TreeOrder`), the leaf walk
  (`BPlusIndex`), descent and cursor (`BPlusTree`), the validator with its colour search,
  link pass and chain walk (`DfsSpec`, `DfsState`, `DfsSteps`, `DfsTrack`, `Validator`,
  `HeaderCheck`, `OpenIndex`), and the bulk load (`Builder`). The validator is proved in
  both directions: it accepts a heap if and only if the heap is a valid index.
- **Persistence** (`PageCodec`, `PageReader`, `ByteLayout`, `PersistedIndex`,
  `FileLayout`): pages as bytes, each word at its offset, round trips, and disjoint file
  ranges without overflow.
- **Layout equivalence** (`LayoutEquivalence`, `SearchLayouts`): the built tree and the
  sorted array answer every call sequence alike, and searches depend neither on the
  layout nor, where no distance overflows, on pruning.
- **Table sorting** (`SortTables`): the work-claiming protocol under every interleaving.
- **Search** (`Schedule`, `Strategy`, `DistanceKernel`, `DistanceMeaning`, `TopK`,
  `Delivery`, `DeliveryOrder`, `Submissions`, `RangeDriver`, `Engine`,
  `EngineInvariant`): the two ledgers, collision counting, bounded distances, the result
  list and the loop that combines them.
- **Query scratch** (`Scratch`, `ScratchRuns`): epoch stamps and leases, over any history
  of queries on a thread.
- **What a search means** (`SearchSemantics`, `SearchStops`, `SearchExhaustion`,
  `SearchProgress`, `SearchRounds`, `SearchFinishes`, `SearchRadii`): which points are
  evaluated, that a search stops when its rule is met and what holds then, and exactly
  when a search finishes and when it fails (`OnePointSearch` shows both on one point).
- **The call** (`SearchPlaces`, `SearchReply`, `SearchLoop`, `SearchCalls`): the loop on
  mutable objects, over cursors of any layout, computes exactly the modelled run, and its
  reply is true of it.

Definitions that mirror the code are pinned from outside: thresholds, budgets, limits,
radii, windows, distances, orders and byte offsets are each also stated in plain numbers
(`HeapMeaning` does so for orders and page shapes).

Values, distances and radii are reals. Where the code rounds, the model rounds with an
arbitrary function that is monotone and keeps zero, which is all the proofs use of
round-to-nearest (section 4.3.1 of IEEE 754-2019); the distance kernel also uses that
rounded numbers stay as they are, that a double holds every float32 and that the square
root inverts the square of a float32; whole-number arithmetic is shown to meet all of it.
Overflow is a comparison with the largest float32. Sequences of calls, heaps, file bytes,
queries, interleavings and runs are universally quantified throughout.

That every search finishes is false of the code: the radius grows until a window covers
every projection, and a radius or window beyond the largest float32 is refused with an
error. What holds is exact. With representable distances and a rule that never fires a
search finishes if and only if one of the radii it reaches has a window over everything,
and otherwise fails on the first refused one; other rules can only make it finish more
often. A search for one point shows both sides: it finishes up to a distance of 1e38 and
fails beyond.

Places where the code does less than it might seem to, all proved: the fallback to the
previous leaf when a cursor is placed (src/qalsh.cc:2025-2038), the branch that advances
the radius on an incomplete round (src/qalsh.cc:2747), and, when a sorted array is opened,
the overflow, extent and data-tail tests (src/qalsh.cc:2373-2376, 2402-2403) and the last
pass over the point marks (src/qalsh.cc:2396-2399) can never have an effect.
Balanced grouping leaves no unary node exactly when the node capacity is at least three
or the level even; with the accepted page sizes the capacity is at least forty.

`dafny verify dfyconfig.toml` verifies the whole project.

## Model

| member | source | states |
|---|---|---|
| Tables.InsideTowardsQuery | src/window_clamp.h:41-47 | a rounded difference cannot shrink while a value moves away from the query, so an entry nearer the query than an inside entry is inside |
| Tables.EveryIdOccurs | src/qalsh.cc:1856-1857 | n distinct ids below n are all the ids below n |
| HeapMeaning.OrderIs | src/qalsh.cc:500-504 | a table is in order exactly when each entry comes before the next by value, and by id among equal values |
| HeapMeaning.TableIs | src/qalsh.cc:1856-1857 | a valid table of n points has n entries in that order and holds every point exactly once |
| WindowClamp.InsideMask | src/window_clamp.h:52-89 | the shuffled four-lane loads answer, in both directions, for entries position..position+3 in logical order and read nothing outside the range |
| WindowClamp.FirstZero | src/window_clamp.h:91-96 | the first lane that is outside, or four |
| WindowClamp.PrefixUnique | src/window_clamp.h:110-155 | on an outward range one inside entry before a cut and one outside entry at it decide the linear-scan prefix length |
| WindowClamp.ClampFourLane | src/window_clamp.h:110-155 | on every outward range the block search returns exactly the linear-scan prefix; every probe stays in the range and the loops end |
| WindowClamp.ClampScalar | src/window_clamp.h:110-117 | the portable build returns the same prefix by binary search alone |
| FlatCursor.ScanSound | src/qalsh.cc:1053-1138 | one scan keeps a cursor sound and delivers exactly the entries its two positions sweep over, left side first and outward, reporting how many |
| ScanShares.QuantumShares | src/qalsh.cc:1078-1081 | a quantum scan visits at most its limit: half of it, rounded up, to the left, the other half to the right, or what the left side has left over when the limit is one; a side that could go on has had its full share |
| ScanShares.RegionShares | src/qalsh.cc:2502-2514 | a region scan visits at most the limit on each side, never leaves the regions it starts in, and stops inside one only at the limit or at the window |
| ScanShares.VisitsWithin | src/qalsh.cc:1053-1138 | so one call visits at most its limit, or the limit on each side |
| FlatCursor.WindowIsDelivered | src/qalsh.cc:1132-1137 | with the window exhausted, an entry lies between the positions if and only if it is within the bound |
| FlatCursor.RunInvariant | src/qalsh.cc:862-869 | after any sequence of calls, refused ones included, the delivered entries are exactly the open interval between the positions, each once; a blocked side rests on an entry outside the last bound |
| FlatCursor.RunHitsInside | src/qalsh.cc:1053-1138 | in any run the entries delivered by call k lie within the bound of call k |
| FlatCursor.RunTableExhausted | src/qalsh.cc:1133-1134 | after any run, table_exhausted is reported if and only if everything has been delivered |
| FlatCursor.RunWindowExhausted | src/qalsh.cc:1135-1137 | after any run, window_exhausted means the delivered interval is exactly the window of the bound |
| FlatCursor.ScanProgress | src/qalsh.cc:1121-1129 | a scan with an open side strictly decreases undelivered entries plus open sides, quantum one included |
| ArrayIndexes.FindLowerBound | src/qalsh.cc:2436-2447 | the binary search finds the lower-bound partition point |
| ArrayIndexes.RegionByDivision | src/qalsh.cc:2541-2543 | integer division names the region of an entry, and its end is the next multiple or the table end |
| ArrayIndexes.MemoryScan | src/qalsh.cc:1053-1138 | InMemoryIndex::scan_impl with its clamp per side equals the flat scan, keeps the positions apart, and visits no more entries than the call allows |
| ArrayIndexes.ArrayScan | src/qalsh.cc:2476-2583 | SortedArrayIndex::scan_impl with its clamp per region or side equals the flat scan and visits no more entries than the call allows |
| ArrayIndexes.InMemoryIndex.ResetCursor | src/qalsh.cc:1014-1035 | the cursor is placed at lower bound minus one and lower bound; a bad table number changes nothing |
| ArrayIndexes.InMemoryIndex.Scan | src/qalsh.cc:1037-1050 | the flat scan, or a refusal that leaves the cursor where it was |
| ArrayIndexes.SortedArrayIndex.ResetCursor | src/qalsh.cc:2422-2455 | as in memory, by its own binary search |
| ArrayIndexes.SortedArrayIndex.Scan | src/qalsh.cc:2457-2473 | the flat scan over the table cut into page-sized regions, or a refusal |
| SortedArrayOpen.CheckTable | src/qalsh.cc:2379-2399 | with marks carried over from earlier tables, a table is accepted if and only if it is strictly ordered and holds every id once; the closing pass over the marks never refuses |
| SortedArrayOpen.CheckTables | src/qalsh.cc:2366-2404 | on the bytes of any file whose header was accepted, the checks of offsets, extents, entries and data tail accept exactly contiguous offsets and valid tables; overflow, extent and tail refusals cannot occur |
| SortedArrayOpen.Open | src/qalsh.cc:2274-2404 | any bytes at all: opened if and only if the header describes the file, the offsets are contiguous and the stored tables valid, and then as exactly those tables |
| SortedArrayOpen.SaveThenOpen | src/qalsh.cc:1387-1488 | for every accepted configuration the file written opens to the tables put in |
| ArrayFile.ArrayEnvelopeSound | src/qalsh.cc:408-469 | an accepted header puts offsets, projections and tables one after another, the tables filling the file to its end |
| ArrayFile.ArrayEnvelopeIs | src/qalsh.cc:407-469 | the layout check accepts exactly these numbers: sizes in range, offsets behind 120 bytes of header, vectors behind the offsets, tables of eight bytes an entry on a page boundary behind them and to the end, one page more than the regions of all tables, no overflow |
| ArrayFile.ArrayPlanSucceeds | src/qalsh.cc:1387-1428 | for every accepted configuration no checked operation of the layout overflows, the tables start on the next page boundary, and the header check accepts the result |
| ArrayFile.HeaderBack | src/qalsh.cc:1450-1474 | the layout fields of the header come back as written |
| ArrayFile.OffsetsBack | src/qalsh.cc:1417-1428 | the table offsets come back, each table starting where the one before ends |
| ArrayFile.TablesBack | src/qalsh.cc:1475-1488 | every entry of every table comes back as written |
| ArrayFile.WriteArray | src/qalsh.cc:1450-1488 | the writes at their offsets, into a file of zeros of the planned size, give exactly header, offsets, vectors, padding and tables |
| BPlusIndex.LeafIsRegion | src/qalsh.cc:2154-2229 | a leaf of a valid chain is one region of the flat table, at its offset |
| BPlusIndex.NeighbourLinks | src/qalsh.cc:2154-2229 | a link is zero exactly at the end of the chain, and otherwise names the neighbour |
| BPlusIndex.WalkLeft | src/qalsh.cc:2154-2191 | the left walk over the leaf chain, clamping leaf by leaf, is the flat left scan |
| BPlusIndex.WalkRight | src/qalsh.cc:2193-2229 | the right walk is the flat right scan |
| BPlusTree.DiskScan | src/qalsh.cc:2089-2259 | scan_impl over leaves equals the flat scan: hits, order, positions and report, and no more entries than the call allows |
| BPlusTree.HeightBelowPageCount | src/qalsh.cc:1997-2000 | a tree of a valid heap is lower than the heap is long, so the descent guard cannot fire |
| BPlusTree.ChooseChild | src/qalsh.cc:2055-2065 | the child followed is the first whose right separator is not below the query |
| BPlusTree.DescendTo | src/qalsh.cc:2055-2069 | that child's leaves hold the partition point, runs of equal keys across leaves and levels included |
| BPlusTree.DescendTree | src/qalsh.cc:1997-2070 | the descent ends in the leaf that holds the partition point, within the step guard |
| BPlusTree.LeafReached | src/qalsh.cc:2009-2050 | in that leaf the local partition is the table's, and a local partition of zero only occurs in the first leaf |
| BPlusTree.PlaceInLeaf | src/qalsh.cc:2009-2050 | left is lower bound minus one and right is lower bound; the branch that looks into the previous leaf is never taken |
| BPlusTree.BPlusTreeIndex.ResetCursor | src/qalsh.cc:1955-2071 | descent refines lower_bound on every valid tree and query |
| BPlusTree.BPlusTreeIndex.Scan | src/qalsh.cc:2073-2086 | the flat scan of the table, or a refusal |
| HeaderCheck.CheckPages | src/qalsh.cc:1652-1690 | the first pass accepts exactly pages of the right shape with links in range |
| HeapMeaning.ShapeIs | src/qalsh.cc:1646-1690 | the right shape in numbers: kind 1 with at least one entry, eight bytes each behind 32, or kind 2 with at least two children, twelve bytes each with their separators, one separator fewer, and no links |
| HeapMeaning.TreeIsLevel | src/qalsh.cc:1814-1832 | every path of a table's tree from the root to a leaf is equally long |
| HeapMeaning.EveryPageOnce | src/qalsh.cc:1859-1863 | in a valid index every page but page zero stands in exactly one place of one table's tree |
| Validator.ReadLeaf | src/qalsh.cc:1734-1777 | a leaf is accepted exactly when its entries are ordered, in range and new to the table |
| Validator.OpenPage | src/qalsh.cc:1781-1798 | an internal page is opened exactly when its children are in range and its separators do not fall |
| Validator.ClosePage | src/qalsh.cc:1814-1854 | an internal page is closed exactly when its children are closed, of one height, in order, and matched by the separators |
| Validator.Turn | src/qalsh.cc:1724-1855 | one turn of the colour search keeps the invariant, stays on the track of any tree there is, and makes progress |
| Validator.SearchLoop | src/qalsh.cc:1724-1855 | the stack loop ends on every heap, cyclic or shared pages included |
| Validator.SearchTable | src/qalsh.cc:1717-1858 | a searched table is a tree whose in-order leaves spell n ordered distinct entries, and a valid table is never refused |
| HeaderCheck.CheckLinks | src/qalsh.cc:1860-1881 | every page was reached, and leaf links are mutual and stay within a table, exactly when accepted |
| HeaderCheck.WalkChain | src/qalsh.cc:1883-1913 | the chain walk ends, and accepts exactly when the chain visits all leaves of the table in order |
| HeaderCheck.WalkChains | src/qalsh.cc:1882-1913 | the chain equals the in-order traversal and ranks number it |
| OpenIndex.LoadHeader | src/qalsh.cc:1652-1913 | load_header accepts a page heap if and only if some forest makes it a valid index: each page in one tree of one table, equal leaf depth, separators equal to first keys, linked leaves that spell a sorted permutation |
| OpenIndex.Open | src/qalsh.cc:1522-1560 | the opened index is valid and over these pages, or the heap is not one |
| Builder.Grouping | src/qalsh.cc:1216-1223 | groups partition a level, stay within the capacity, shrink the level, and none is unary if and only if the capacity is at least three or the level even |
| Builder.PagesPerTable | src/qalsh.cc:1182-1187 | the page count computed before any page is made |
| Builder.PackLeaves | src/qalsh.cc:1193-1213 | leaves hold the table in order, full but for the last, linked both ways |
| Builder.StackLevel | src/qalsh.cc:1216-1251 | one level of groups: every node has two to capacity children and its separators are their first keys; the unary guard never fires |
| Builder.BuildLevels | src/qalsh.cc:1215-1252 | levels shrink to one root, over all pages of the table and its leaves in order, as many pages as announced |
| Builder.BuildTable | src/qalsh.cc:1193-1253 | one table appended: a valid tree spelling the table |
| Builder.Build | src/qalsh.cc:1174-1253 | the heap of all tables is a valid index of the announced size whose leaves spell the given tables |
| LayoutEquivalence.TreeUnique | src/qalsh.cc:1717-1858 | pages spell at most one tree below a page |
| LayoutEquivalence.BuiltOpens | src/qalsh.cc:1652-1913 | what Build makes meets everything load_header asks for |
| LayoutEquivalence.BuildThenOpen | src/qalsh.cc:1147-1353 | Open accepts every heap Build makes and reads back the tables along the leaf chain |
| LayoutEquivalence.LeafStartsAreRegions | src/qalsh.cc:2476-2583 | leaf boundaries of a built chain are the region boundaries division by the leaf capacity gives |
| LayoutEquivalence.CompareLayouts | src/qalsh.cc:2089-2259 | tree and array over one table answer any sequence of calls alike, refusals included: as the flat cursor does |
| LayoutEquivalence.LayoutsAgree | src/qalsh.cc:2476-2583 | for the same tables, page size and any sequence of bounds, limits and scopes, the built and opened B+ tree and the sorted array deliver the same hits and reports |
| LayoutEquivalence.QuantumAnswers | src/qalsh.cc:1053-1138 | quantum scans do not see regions, so the in-memory layout answers them alike too |
| PageCodec.DecodeEncode | src/qalsh.cc:638-643 | a word read back is the word written |
| PageCodec.EncodeDecode | src/qalsh.cc:638-643 | any bytes are the encoding of the word they decode to |
| PageCodec.SerializePage | src/qalsh.cc:705-746 | refuses exactly inconsistent or oversized pages, and otherwise fills the buffer with header, body and zeros |
| PageReader.HeaderRoundTrip | src/qalsh.cc:638-643 | ReadPageHeader recovers the header |
| PageReader.EntryRoundTrip | src/qalsh.cc:645-658 | ReadDiskEntry recovers every entry |
| PageReader.ChildRoundTrip | src/qalsh.cc:672-685 | ReadChild recovers every child |
| PageReader.SeparatorRoundTrip | src/qalsh.cc:687-703 | ReadSeparator recovers every separator |
| PageReader.PageRoundTrip | src/qalsh.cc:638-746 | a page within capacity comes back as written, leaf or internal |
| PageReader.ReadsInside | src/qalsh.cc:645-703 | on any bytes, reads within the capacity never leave the page |
| PageReader.AnyBytesDecode | src/qalsh.cc:1654-1689 | whatever bytes a file holds, its pages decode to what the validator starts from |
| PageReader.WriteAndRead | src/qalsh.cc:1323-1331 | writing all pages and reading them back is the identity |
| ByteLayout.PageHeaderAt | src/qalsh.cc:46-52 | kind at byte 0, count at 4, previous at 8, next at 16, little-endian, zeros up to 32 |
| ByteLayout.EntryAtByte | src/qalsh.cc:713-725 | entry i of a leaf: its value at byte 32 + 8i, its id four bytes on |
| ByteLayout.ChildAtByte | src/qalsh.cc:736-739 | child i of an internal page at byte 32 + 8i |
| ByteLayout.SeparatorAtByte | src/qalsh.cc:740-744 | separator i four bytes each behind the children |
| ByteLayout.ArrayHeaderAt | src/qalsh.cc:60-86 | the sizes at bytes 24 to 36 and the layout at bytes 80 to 112 of the file header |
| ByteLayout.TableOffsetAt | src/qalsh.cc:1475-1476 | the offset of table t at byte 120 + 8t |
| ByteLayout.StoredEntryAt | src/qalsh.cc:1480-1488 | entry i of a stored table eight bytes each: the value, then the id |
| PersistedIndex.HeapPageFits | src/qalsh.cc:1323-1331 | everything on a built page fits the words it is stored in |
| PersistedIndex.SaveThenOpen | src/qalsh.cc:1147-1353 | build, serialize, decode, open: the tables put in are the tables scanned |
| FileLayout.MultiplyExact | src/qalsh.cc:234-240 | the quotient test refuses exactly the products that do not fit 64 bits |
| FileLayout.Aligned | src/qalsh.cc:261-268 | the next multiple of the alignment, less than one alignment away |
| FileLayout.PagesDisjoint | src/qalsh.cc:1323-1331 | pages do not share bytes and lie inside the file |
| FileLayout.TableBytes | src/qalsh.cc:1182-1192 | a bound on the bytes of a table's pages |
| FileLayout.PlanSucceeds | src/qalsh.cc:1255-1274 | for every accepted configuration no checked operation overflows, and header, roots, projections and, from the next page boundary on, pages are disjoint ranges inside the file |
| FileLayout.EnvelopeIs | src/qalsh.cc:356-405 | the layout check accepts exactly these numbers: sizes in range, roots behind 120 bytes of header, vectors behind the roots, at least two pages on a page boundary behind them and to the end, no overflow |
| FileLayout.EnvelopeSound | src/qalsh.cc:356-405 | any header the layout check accepts describes disjoint ranges inside the file |
| FileLayout.BuiltEnvelope | src/qalsh.cc:356-405 | the header Build writes passes that check |
| SortTables.Exclusive | src/qalsh.cc:510-517 | in every interleaving no two workers sort the same table |
| SortTables.OwnerForLife | src/qalsh.cc:510-517 | a claimed table keeps its one owner |
| SortTables.SortedWhenJoined | src/qalsh.cc:510-528 | when all workers have returned, every table is sorted and holds what it held |
| SortTables.OrderUnique | src/qalsh.cc:500-504 | distinct keys leave only one sorted order |
| SortTables.ParallelIsSerial | src/qalsh.cc:499-529 | in every interleaving the result equals sorting the tables one by one |
| SortTables.SortSerially | src/qalsh.cc:505-508 | the serial path sorts each table |
| SortTables.SortedTableValid | src/qalsh.cc:500-504 | sorting n entries with distinct ids below n gives a valid table |
| SortTables.NoDeadlock | src/qalsh.cc:499-528 | from every state any schedule reaches, a failed thread start included, the workers that were started can all still return |
| Schedule.TableScanSchedule.Start | src/qalsh.cc:2656-2666 | all tables wait, in order and once each, with true counters |
| Schedule.TableScanSchedule.NextTable | include/qalsh/qalsh.h:390-397 | takes the front table, which is then the only one out, or none exactly when the round is complete |
| Schedule.TableScanSchedule.OnScanBoundary | src/qalsh.cc:2668-2687 | the table that was out waits again or is complete; every incomplete table waits exactly once and the counters count their marks |
| Schedule.TableScanSchedule.OnRadiusAdvanced | src/qalsh.cc:2689-2700 | exactly the tables not exhausted wait again, once each, and the counters count their marks |
| Schedule.BoundaryKeeps | src/qalsh.cc:2668-2687 | a reported table either waits again or is complete; each incomplete table waits exactly once, counters count their marks, exhausted implies complete |
| Schedule.AdvanceKeeps | src/qalsh.cc:2689-2700 | after a radius step exactly the tables not exhausted wait, once each |
| Schedule.EmptyQueue | src/qalsh.cc:2742-2747 | the queue is empty if and only if the round is complete |
| Schedule.RoundRobin | src/qalsh.cc:2668-2687 | tables are served in the order in which they wait, and one that is put back waits behind all the others |
| Strategy.DefaultQalshStrategy.Start | src/qalsh.cc:2757-2790 | with the built-in rule, accepts exactly the index's own threshold, or the strategy's where it sets one, between one and the table count; then every counter stands at that number and all tables wait |
| Strategy.DefaultQalshStrategy.Next | src/qalsh.cc:2729-2755 | the table asked for is incomplete and the only one out; the radius advances only when every table is complete and one has entries left; Finish is returned exactly when a finish is requested |
| Strategy.DefaultQalshStrategy.ScanBoundary | include/qalsh/qalsh.h:563-569 | after the report of the table that was out, every incomplete table waits once; a finish is requested only on a complete round whose rule fires |
| Strategy.DefaultQalshStrategy.AcceptBuiltinId | include/qalsh/qalsh.h:547-555 | names a point exactly at the hit that brings its counter from one to zero, so at no later hit, and leaves all other counters alone |
| Strategy.DefaultQalshStrategy.AcceptHit | include/qalsh/qalsh.h:517-545 | nothing once a finish is requested, an error on a point out of range, and otherwise the same decision |
| Strategy.ChoiceIsGood | src/qalsh.cc:2729-2755 | whatever the rules, the decision keeps the ledgers true |
| DistanceKernel.SumGrows | src/qalsh.cc:882-893 | partial sums never fall, rounding included |
| DistanceKernel.StopIsSafe | src/qalsh.cc:879-894 | a partial sum past the limit means the rounded distance is past the bound, also where distance and bound round together |
| DistanceKernel.Kernel | src/qalsh.cc:876-904 | exact if and only if the full distance is within the bound, and then that distance; the overflow error only without a finite bound; the early exit changes nothing |
| DistanceMeaning.ExactDistance | src/qalsh.cc:882-901 | where doubles do not round, the full distance is the sum of the differences or the root of the sum of their squares, for any number of coordinates, rounded once to float32 and refused beyond the largest |
| DistanceMeaning.RoundedDistance | src/qalsh.cc:882-901 | in any arithmetic it is the sum by blocks of 64 coordinates, first to last, with one rounding per operation |
| DistanceMeaning.OneCoordinate | src/qalsh.cc:882-901 | on one coordinate both norms give the difference itself, rounding included |
| TopK.InsertNeighbor | src/qalsh.cc:814-825 | binary search, insertion and cut are the specified insertion |
| TopK.InsertKeeps | src/qalsh.cc:814-825 | inserting a new point keeps the list the k best of the evaluated points by (distance, id) |
| TopK.PruneKeeps | src/qalsh.cc:844-853 | leaving out a point beaten by the full list keeps it so |
| TopK.TopKSize | src/qalsh.cc:814-825 | the list holds min(k, evaluated) different points |
| TopK.TopKUnique | src/qalsh.cc:791-825 | there is only one such list, whatever the order of arrival and with or without pruning |
| Delivery.DeliverChunks | include/qalsh/qalsh.h:683-732 | cutting a range of hits into consecutive chunks changes nothing |
| Delivery.HitKeeps | include/qalsh/qalsh.h:517-555 | a point is evaluated at its threshold-th hit and never again; counters stay true to the hits unless the strategy ignores them |
| Delivery.EvaluateResults | src/qalsh.cc:827-860 | the first submission of a point, pruned or exact, keeps the list the k best and counts one more; duplicates are in Submissions.SubmitKeeps |
| Submissions.SubmitKeeps | src/qalsh.cc:827-860 | for any sequence of submissions, duplicates included and pruned or not, the evaluated points are the submitted ones and the list is the k best of them |
| Submissions.MeasureSame | src/qalsh.cc:844-853 | where every distance is representable, a pruned and a full evaluation end in the same state |
| Submissions.SubmissionsDecide | src/qalsh.cc:827-860 | two sequences that submit the same points give the same list, in any order, with any repetition, pruned or not |
| Delivery.DeliverKeeps | include/qalsh/qalsh.h:683-732 | a run of hits adds its occurrences to every count and keeps results and the reason to finish |
| DeliveryOrder.FailsExactly | src/qalsh.cc:838-860 | an evaluation fails exactly for a new point whose distance no float32 holds while fewer than k neighbours are known or distances are not bounded |
| DeliveryOrder.DeliverLogs | include/qalsh/qalsh.h:683-732 | hits are worked off in order: each evaluation is of the point of the hit whose number it records, and the numbers rise |
| DeliveryOrder.ScanLogs | src/qalsh.cc:2966-2981 | a scan evaluates in the order in which the cursor yields the entries |
| DeliveryOrder.ScanVisits | src/qalsh.cc:2966-2981 | one scan turn moves one cursor, over at most the quantum, half of it to each side rounded up |
| DeliveryOrder.TurnVisits | src/qalsh.cc:2966-2981 | so no turn of a search visits more entries than the quantum |
| RangeDriver.EvaluateCandidate | src/qalsh.cc:827-860 | marks, evaluates with the current bound, records and tells the strategy, as specified |
| RangeDriver.DeliverRange | include/qalsh/qalsh.h:712-726 | the bulk path ends in the state of the hit-by-hit fold, log included: the same evaluations in the same order at the same hit counts |
| RangeDriver.DeliverEach | include/qalsh/qalsh.h:683-711 | the generic path, with its own handling of each hit, ends in the state of the same fold, log included |
| RangeDriver.HandleHit | include/qalsh/qalsh.h:517-545 | one hit counted, tested and evaluated the generic way is one step of the fold |
| Scratch.QueryScratch.Advance | src/qalsh.cc:2854-2858 | after the next epoch, 32-bit wrap included, no point is marked |
| Scratch.QueryScratch.Resize | src/qalsh.cc:2851-2853 | growing keeps every stamp behind the epoch |
| Scratch.QueryScratch.Mark | src/qalsh.cc:841 | exactly the submitted point is added |
| Scratch.ScratchPool.Acquire | src/qalsh.cc:2833-2858 | a lease is one nobody holds, starts with no point marked for any index size, and is the only scratch that changes; the pool grows by at most it |
| Scratch.ScratchPool.Release | src/qalsh.cc:184-191 | the lease is given back and the pool stays valid |
| ScratchRuns.Play | src/qalsh.cc:2833-2858 | over any history of leases taken, points submitted and leases given back, nested and of mixed sizes, on any pool, every live lease marks exactly the points submitted under it, and leases others hold keep their marks |
| ScratchRuns.LeasePoints | src/qalsh.cc:827-841 | the points of a lease are exactly those some move submitted under it while it was live |
| Engine.ActionFits | src/qalsh.cc:2960-2962 | the strategy only asks for tables the engine has |
| EngineInvariant.BeginReady | src/qalsh.cc:2860-2900 | a search begins in the invariant |
| EngineInvariant.ChoiceKeeps | src/qalsh.cc:2729-2755 | the strategy's choice keeps the invariant, takes an incomplete table or leaves the queue, and finishes only for a reason |
| EngineInvariant.ScanCounts | src/qalsh.cc:2966-2981 | delivering a scan's hits counts exactly the entries the cursor moved over |
| EngineInvariant.BoundaryLockstep | src/qalsh.cc:2982-2996 | both ledgers take one report the same way |
| EngineInvariant.ScanKeeps | src/qalsh.cc:2959-2998 | a whole scan turn keeps the invariant or ends in the overflow error |
| EngineInvariant.WindowGrows | src/qalsh.cc:219-224 | a larger radius never means a smaller window, rounding included |
| SearchRadii.RadiusAt | src/qalsh.cc:2999-3012 | at every turn of every search the radius is the initial one multiplied by the growth again and again in float32, each larger than the last and in range, and the bound is half the width times it, rounded |
| EngineInvariant.WidenedKeeps | src/qalsh.cc:2999-3015 | advancing the radius keeps the invariant; exhausted tables stay complete |
| EngineInvariant.StepKeeps | src/qalsh.cc:2954-3026 | every turn of the loop keeps the invariant, and a finished search says truthfully whether its tables were used up |
| SearchSemantics.CoreSemantics | src/qalsh.cc:2954-3015 | in any invariant state the evaluated points are near in at least as many tables as the index's own threshold, or the strategy's where it sets one, and exactly those on a complete round |
| SearchSemantics.RoundSemantics | src/qalsh.cc:2954-3015 | in every run, whenever a round is complete and no finish is requested, the evaluated points are exactly those whose rounded difference is within the bound in at least collision_threshold tables: the index's, or the strategy's where it sets one |
| SearchSemantics.EvaluatedAreNear | src/qalsh.cc:2954-3015 | at any time nothing else has been evaluated, by the same number |
| SearchSemantics.ResultsAreTopK | src/qalsh.cc:3029-3036 | at every turn the neighbours are the k best evaluated points, evaluated counts them, and hits counts every entry the cursors passed |
| SearchSemantics.LedgersAgree | src/qalsh.cc:2976-3013 | at every call of next the engine and the schedule agree, each incomplete table waits once, and the queue is empty if and only if the round is complete |
| SearchSemantics.AdvanceOnlyWhenComplete | src/qalsh.cc:2747-2749 | the radius advances only on a complete round; the branch for an incomplete one is never taken |
| SearchSemantics.FinishGuarantee | include/qalsh/qalsh.h:576-586 | a run of the standard rule that stops by strategy has evaluated candidate_budget + k - 1 points, or all, or as many as the override says, or has its k-th neighbour within the rounded ratio times the radius |
| SearchSemantics.NeverStopsEarly | src/qalsh.cc:3016-3020 | a rule that never fires leaves only exhaustion as a reason |
| SearchStops.BudgetHolds | include/qalsh/qalsh.h:557-586 | with the check after evaluations, no search of the standard rule evaluates more than candidate_budget + k - 1 points, or the override, or all points, and at least one; a spent budget has requested a finish |
| SearchStops.NoticedAtOnce | include/qalsh/qalsh.h:557-586 | a turn that evaluates a point and leaves the budget spent or the k-th neighbour within the ratio requests a finish |
| SearchStops.EvaluateStops | include/qalsh/qalsh.h:557-561 | whatever the rule, an evaluation that leaves the search due requests a finish, a duplicate's too |
| SearchStops.RoundStops | include/qalsh/qalsh.h:562-569 | with the check at round boundaries and whatever the rule, a complete round at which the search is due has requested a finish |
| SearchStops.AdvanceStops | src/qalsh.cc:2729-2740 | a search that is due right after a larger radius ends without scanning a table |
| SearchStops.RequestEnds | src/qalsh.cc:2729-2732 | a search that has requested a finish is over at its next turn, with what it has |
| SearchStops.OnlyAtBoundaries | include/qalsh/qalsh.h:557-569 | without the check after evaluations a finish is requested only on a complete round that is due, with the check there on |
| SearchStops.UncheckedExhausts | include/qalsh/qalsh.h:557-569 | with neither check only exhausted tables end a search |
| SearchExhaustion.UsedUpSeesAll | src/qalsh.cc:2742-2746 | with every table used up and no hit ignored, every point is evaluated |
| SearchExhaustion.ExhaustionIsExact | src/qalsh.cc:3016-3036 | with a rule that never fires a finished search has evaluated all n points and returns the exact k nearest by (distance, id) |
| SearchProgress.ScanUsesWork | src/qalsh.cc:1121-1129 | a scan of an incomplete table uses up entries, open sides or the report that completes it |
| SearchRounds.CoveredRound | src/qalsh.cc:2742-2746 | a complete round whose window covers every projection has used up every table |
| SearchRounds.UsedUpCovers | src/qalsh.cc:2742-2746 | and tables are used up only by a window that covers every projection |
| SearchRounds.AdvanceIsShort | src/qalsh.cc:2747-2755 | a larger radius is asked for only when the window at hand does not cover everything |
| SearchRounds.TurnUses | src/qalsh.cc:2954-3015 | every turn uses up work in its round, or moves to the next radius of the search from a round that does not cover everything |
| SearchRounds.EverySearchEnds | src/qalsh.cc:2954-3026 | whatever the rules, the quantum, the data and the rounding, a search ends if some radius it would reach is refused or covers everything |
| SearchRounds.FiniteStops | src/qalsh.cc:2999-3003 | there is such a radius wherever finitely many numbers are in range, as in float32 |
| SearchRounds.ExactStops | src/qalsh.cc:2999-3003 | and in arithmetic without rounding |
| SearchFinishes.SearchFinishes | src/qalsh.cc:2954-3026 | with representable distances and any rules, a search that reaches a window over everything finishes |
| SearchFinishes.FinishesExactly | src/qalsh.cc:2954-3026 | with representable distances and a rule that never fires, a search finishes if and only if some radius it reaches without a refusal has a window over every projection |
| SearchRadii.FinishesByNumbers | src/qalsh.cc:2954-3026 | in numbers: it finishes if and only if the radius can be multiplied up, in float32 and in range, until half the width times it reaches every projection |
| SearchFinishes.ThrowsExactly | src/qalsh.cc:2999-3015 | and throws if and only if a radius or its window is refused before that |
| SearchFinishes.FinishesOrThrows | src/qalsh.cc:2954-3026 | where radii cannot grow for ever it does exactly one of the two |
| SearchFinishes.UnhurriedSearchIsExact | src/qalsh.cc:2954-3036 | where it finishes, it returns the exact k nearest of all points |
| OnePointSearch.ExampleFinishes | src/qalsh.cc:2999-3015 | one point, radii 1e37 and 1e38, the largest float32 as the limit: the search finishes for points up to 1e38 and throws for every one beyond |
| OnePointSearch.WholeLaws | src/qalsh.cc:876-904 | rounding to whole numbers satisfies everything asked of the arithmetic |
| SearchLayouts.SearchSame | src/qalsh.cc:2921-2935 | tables cut into other regions give the same run turn by turn, and so does bounded_distance on or off where every distance is representable |
| SearchPlaces.ScanOne | src/qalsh.cc:2921-2935 | whichever layout the index has, its scan is the flat scan of its cursor |
| SearchPlaces.PlaceAll | src/qalsh.cc:2869-2882 | cursors of any layout are placed at the lower bounds of their tables |
| SearchLoop.TakeTurn | src/qalsh.cc:2954-3026 | one iteration on the cursors of any layout, runtime, strategy and schedule is one turn of the transition system |
| SearchLoop.RunLoop | src/qalsh.cc:2952-3036 | the loop over any layout returns what the run of that many turns stands for: the k nearest evaluated points, the counts, the reason and whether it is complete |
| SearchLoop.Search | src/qalsh.cc:2809-3037 | the whole call on any layout, limited to max_steps, or 32 steps per point and table and at least ten thousand: the reply of the run, true of it in every field, or an error exactly when the start or the run has one; the lease is given back on errors too, and leases already out keep their marks |
| SearchReply.ReplyTells | src/qalsh.cc:3028-3037 | whatever the limit, a reply holds the k nearest of the points evaluated by distance and id, how many they are, how many entries the cursors passed, exhausted exactly if every cursor has left its table, step limit exactly if the search still runs, and complete exactly if it finished with k neighbours |
| SearchReply.ExactReply | src/qalsh.cc:3016-3037 | with a rule that never fires, a reply of exhausted tables holds the k nearest of all points |
| SearchCalls.StartsExactly | src/qalsh.cc:2809-2832 | a search starts exactly when k is between one and the number of points, the threshold between one and the number of tables, and the first window in range |
| SearchCalls.RepliesAgree | src/qalsh.cc:2809-3037 | the reply does not depend on the layout, nor on pruning where no distance overflows |

## Left out

- Files, memory mapping, permissions, fsync, rename and publication: a file is a sequence of bytes, and for the B+ tree the bytes of its pages; the page cache of a cursor is not modelled.
- Float32 and float64 bit patterns, NaN and infinities: reals with abstract rounding; the finiteness checks on stored values, separators and queries therefore have no counterpart.
- The order in which a SIMD reduction adds the terms of a block: the kernel adds them left to right.
- Projection vectors, dot products and DeriveQalshParameters: projected values and parameters are given; no probability of success is claimed.
- Validation of configuration fields and of the header fields that are not about the layout, each a single comparison.
- Error texts: a refusal is a value, and which message is thrown is kept only for scan calls.
- External strategies and external indexes, rules with state that evolves, exceptions thrown by callbacks, ownership checks on cursors.
- Strategy.DefaultQalshStrategy.Start: does not model a candidate rule supplied by the user, which replaces the counters by hit counts and skips the threshold check, because such a rule may name any point at any hit; Submissions.SubmitKeeps states the results for whatever sequence of points it names.
- Delivery during a scan: a scan yields its hits as a list that is delivered afterwards; the bound cannot change in between, and Delivery.DeliverChunks shows that delivering leaf by leaf is the same.
- Snapshot caching: a snapshot is taken afresh from the runtime.
- Cursor reuse across queries: the positions are placed anew, as reset_cursor does.
- The flag first_key_known of load_header: it is set exactly when a page's colour becomes final, and the model reads the colour.
- The upper page number limit of load_header: heaps of 2^64-1 pages and more, which a 64-bit page count cannot describe, are outside the model.
- PageReader.WriteAndRead: pages are read back in memory; the system calls between are not part of this model.
- SortTables.ParallelIsSerial: std::ranges::sort appears as arbitrary rearrangements that end in order, not as its algorithm; memory ordering beyond the atomic counter and the join is not modelled.
- OpenIndex.LoadHeader: a root page already searched by an earlier table is refused when the table is opened; the code refuses the same heap a few statements later, when the entry count is compared.
