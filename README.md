# Compute-engine scenarios, `_source` loading and inference endpoint updates

A Dafny model of three parts of Elasticsearch.

- **The ES|QL compute scenarios of `OperatorTests`.** The operators themselves
  (Lucene source, ordinal grouping, hash aggregation, row-in-table lookup) are
  not modelled as implementations. Instead, each scenario states the contract
  that the operator's output must meet, as a specification function over
  sequences. The scenario's own algorithmic code is modelled as it is written:
  - the prime sieve that builds the lookup table, an array method;
  - the expected-ordinal oracle;
  - the count and value-set accumulators;
  - the duplicate-rejecting doc-id collector;
  - the single-threaded reference search;
  - the switch that routes rows by range tag;
  - the driver context check (`assertDriverContext`) and, kept apart from it,
    the block factory's circuit breaker and its return to zero.

  Each scenario ends in a method whose postcondition is that its assertions
  hold for every random choice of input.
- **`SourceLoader`:**
  - the capability flags of the stored, synthetic and synthetic-vectors loaders;
  - `SyntheticLeaf.write`, modelled as the exact sequence of calls it makes on
    its field loader;
  - the synthetic-vector patch tree and `applyPatches`, modelled as the
    insertions the patches perform;
  - `extractRelativePath`;
  - the synthetic-vectors leaf.
- **`TransportUpdateInferenceModelAction`:**
  - the settings merge;
  - the in-cluster service test;
  - the endpoint-existence error mapping;
  - the conflict and deployment decisions of `updateInClusterEndpoint`;
  - the step order of `masterOperation`, modelled as a sequential pipeline of
    `Result` values over oracles for the registry and the cluster.

Files:

- `wrappers.dfy`: `Option`/`Result`.
- `sequences.dfy`: duplicate-free sequences.
- `prime_table.dfy`: the sieve and the prime table.
- `row_lookup.dfy`: the hash-lookup scenario.
- `segment_scan.dfy`: the query-operator scenario.
- `grouping.dfy`: the count and VALUES grouping scenarios.
- `range_routing.dfy`: the range-tag scenario.
- `driver_context.dfy`: the driver context and its block factory's breaker.
- `source_loader.dfy`: the loaders and `SyntheticLeaf.write`.
- `vector_patches.dfy`: the patch tree, `applyPatches` and the synthetic-vectors leaf.
- `update_inference.dfy`: the endpoint update.

## Model

| member | source | states |
|---|---|---|
| PrimeTable.BuildPrimeTable | x-pack/plugin/esql/compute/src/test/java/org/elasticsearch/compute/OperatorTests.java:503-521 | the table block is exactly the primes below the sieve size, in ascending order; the ordinal map has exactly those primes as keys and maps the i-th prime to i |
| PrimeTable.CrossOutMultiples | x-pack/plugin/esql/compute/src/test/java/org/elasticsearch/compute/OperatorTests.java:516-518 | the inner loop clears exactly the multiples of the prime above the prime itself and leaves every other cell as it was |
| PrimeTable.AppendPrime | x-pack/plugin/esql/compute/src/test/java/org/elasticsearch/compute/OperatorTests.java:514-515 | appending a new prime and putting it with the map's size keeps the ordinals dense: the i-th table entry has ordinal i and the map has no other key |
| PrimeTable.TableStep | x-pack/plugin/esql/compute/src/test/java/org/elasticsearch/compute/OperatorTests.java:510-514 | under the sieve invariant, a set cell at the candidate means it is the next prime (and not yet in the table); a cleared one adds nothing |
| PrimeTable.SkipComposite | x-pack/plugin/esql/compute/src/test/java/org/elasticsearch/compute/OperatorTests.java:510-512 | skipping a cleared candidate keeps the sieve invariant: its multiples were already cleared by a smaller divisor |
| PrimeTable.CrossedOutPrime | x-pack/plugin/esql/compute/src/test/java/org/elasticsearch/compute/OperatorTests.java:516-519 | clearing a prime's multiples advances the sieve invariant by one candidate |
| PrimeTable.PrimesBelowExactly | x-pack/plugin/esql/compute/src/test/java/org/elasticsearch/compute/OperatorTests.java:504-520 | the table is strictly ascending and holds x exactly when x is a prime below the bound |
| PrimeTable.PrimesBelowPrefix | x-pack/plugin/esql/compute/src/test/java/org/elasticsearch/compute/OperatorTests.java:514 | appending primes in order: the table for a smaller bound is a prefix of the table for a larger one |
| PrimeTable.PrimeOrdinalIsCount | x-pack/plugin/esql/compute/src/test/java/org/elasticsearch/compute/OperatorTests.java:515 | the ordinal of the i-th prime is the number of primes below it, so ordinals are dense from 0 |
| RowLookup.RowOf | x-pack/plugin/esql/compute/src/test/java/org/elasticsearch/compute/OperatorTests.java:541-545 | the key-table row holding a value: absent exactly when the value is not in the table, otherwise the first row holding it |
| RowLookup.LookupRows | x-pack/plugin/esql/compute/src/test/java/org/elasticsearch/compute/OperatorTests.java:549-550 | the lookup emits one row per probe; block 0 echoes the probes in order; block 1 is null exactly for probes not in the table and otherwise a row holding the probe |
| RowLookup.LookupConcat | x-pack/plugin/esql/compute/src/test/java/org/elasticsearch/compute/OperatorTests.java:539-546 | page boundaries do not matter: looking up two pages is looking up their concatenation |
| RowLookup.CollectPagesIsLookup | x-pack/plugin/esql/compute/src/test/java/org/elasticsearch/compute/OperatorTests.java:547-555 | however the probes are cut into pages, the consumer's collected blocks are the lookup of all probes |
| RowLookup.ExpectedColumns | x-pack/plugin/esql/compute/src/test/java/org/elasticsearch/compute/OperatorTests.java:527-532 | the oracle's expected values are the probes; the expected ordinal is present exactly when the probe is a key, and is then the map's ordinal |
| RowLookup.LookupAgreesWithOrdinals | x-pack/plugin/esql/compute/src/test/java/org/elasticsearch/compute/OperatorTests.java:560-561 | with densely numbered keys, the lookup's ordinal column equals `primeOrds.get(v)` for every probe |
| RowLookup.CheckHashLookup | x-pack/plugin/esql/compute/src/test/java/org/elasticsearch/compute/OperatorTests.java:498-566 | the hash-lookup scenario: both column comparisons succeed for every choice and paging of probes |
| SegmentScan.ScanSlice | x-pack/plugin/esql/compute/src/test/java/org/elasticsearch/compute/OperatorTests.java:119-124 | a slice emits exactly its matching docs, none twice |
| SegmentScan.ScanSlicesMembers | x-pack/plugin/esql/compute/src/test/java/org/elasticsearch/compute/OperatorTests.java:128-141 | a task emits a doc exactly when it matches and lies in one of the task's slices |
| SegmentScan.ScanSlicesDistinct | x-pack/plugin/esql/compute/src/test/java/org/elasticsearch/compute/OperatorTests.java:133-136 | pairwise disjoint slices never emit the same doc twice |
| SegmentScan.ScanSlicesAppend | x-pack/plugin/esql/compute/src/test/java/org/elasticsearch/compute/OperatorTests.java:128-141 | scanning two lists of slices one after the other is scanning their concatenation |
| SegmentScan.TasksOutputIsScan | x-pack/plugin/esql/compute/src/test/java/org/elasticsearch/compute/OperatorTests.java:128-142 | the tasks' output, one task after another, is the scan of all their slices |
| SegmentScan.GlobalIdInjective | x-pack/plugin/esql/compute/src/test/java/org/elasticsearch/compute/OperatorTests.java:134-135 | on contiguous leaves, distinct docs have distinct `docBase + doc` ids |
| SegmentScan.ScanRowsInLeaves | x-pack/plugin/esql/compute/src/test/java/org/elasticsearch/compute/OperatorTests.java:128-141 | when the slices partition the leaves, the scan emits exactly the matching docs of the index |
| SegmentScan.DistinctRowsDistinctIds | x-pack/plugin/esql/compute/src/test/java/org/elasticsearch/compute/OperatorTests.java:133-136 | distinct rows of existing docs give distinct global ids |
| SegmentScan.MatchingRowsGiveSearchResult | x-pack/plugin/esql/compute/src/test/java/org/elasticsearch/compute/OperatorTests.java:143-144 | the global ids of exactly the matching docs are the single-threaded search result |
| SegmentScan.ParallelScanMatchesSearch | x-pack/plugin/esql/compute/src/test/java/org/elasticsearch/compute/OperatorTests.java:133-144 | across all tasks no global doc id is emitted twice, and together they emit exactly the ids the search finds |
| SegmentScan.CollectDocIds | x-pack/plugin/esql/compute/src/test/java/org/elasticsearch/compute/OperatorTests.java:129-138 | the collector succeeds exactly when all rows name a segment and give distinct global ids, and then holds exactly those ids |
| SegmentScan.SearchForDocIds | x-pack/plugin/esql/compute/src/test/java/org/elasticsearch/compute/OperatorTests.java:470-496 | the reference search returns exactly the global ids of the matching docs, and its own `add` check never fails |
| SegmentScan.VisitedNextDoc | x-pack/plugin/esql/compute/src/test/java/org/elasticsearch/compute/OperatorTests.java:483-486 | visiting one more doc adds its global id exactly when it matches |
| SegmentScan.CheckQueryOperator | x-pack/plugin/esql/compute/src/test/java/org/elasticsearch/compute/OperatorTests.java:114-149 | the query-operator scenario: no duplicate is reported and the collected set equals the search result, for every slicing of the leaves into tasks |
| Grouping.CountOf | x-pack/plugin/esql/compute/src/test/java/org/elasticsearch/compute/OperatorTests.java:186 | a key has a count exactly when it occurs, and the count is its number of occurrences |
| Grouping.ExpectedCounts | x-pack/plugin/esql/compute/src/test/java/org/elasticsearch/compute/OperatorTests.java:180-187 | the reference counts every document's key: the result is the occurrence count of each key |
| Grouping.CountOfAdd | x-pack/plugin/esql/compute/src/test/java/org/elasticsearch/compute/OperatorTests.java:186 | one more occurrence of a key raises its count by one, or starts it at one |
| Grouping.FinalCountsAreCounts | x-pack/plugin/esql/compute/src/test/java/org/elasticsearch/compute/OperatorTests.java:214-229 | summing non-empty INITIAL partial counts per key in FINAL gives each key's occurrence count among the documents the partials account for |
| Grouping.GroupedCountsMatchDocs | x-pack/plugin/esql/compute/src/test/java/org/elasticsearch/compute/OperatorTests.java:207-230 | whatever the INITIAL split and shuffle, the FINAL count of each key is the number of documents carrying it, and only keys that occur are present |
| Grouping.CollectCounts | x-pack/plugin/esql/compute/src/test/java/org/elasticsearch/compute/OperatorTests.java:239-248 | the consumer's map has exactly the keys of the rows, each with the count of its last row |
| Grouping.CollectedListing | x-pack/plugin/esql/compute/src/test/java/org/elasticsearch/compute/OperatorTests.java:242-246 | when the rows list a map one key per row, the consumer rebuilds exactly that map |
| Grouping.CheckGroupingCounts | x-pack/plugin/esql/compute/src/test/java/org/elasticsearch/compute/OperatorTests.java:171-257 | the count scenario: the consumer's map equals the reference count for every INITIAL split and page cut |
| Grouping.RowPairs | x-pack/plugin/esql/compute/src/test/java/org/elasticsearch/compute/OperatorTests.java:344-348 | a position yields one (key, value) pair per value, in value order |
| Grouping.AddValue | x-pack/plugin/esql/compute/src/test/java/org/elasticsearch/compute/OperatorTests.java:280 | `computeIfAbsent(key, ...).add(v)` adds v to key's set (creating it) and changes no other key |
| Grouping.ValuesOfMembers | x-pack/plugin/esql/compute/src/test/java/org/elasticsearch/compute/OperatorTests.java:280 | a value is in a key's set exactly when the pair occurred, and no key has an empty set |
| Grouping.ValuesOfAppend | x-pack/plugin/esql/compute/src/test/java/org/elasticsearch/compute/OperatorTests.java:314-321 | the value sets of concatenated pairs are the key-wise union of the parts' sets, as FINAL merges INITIAL partials |
| Grouping.AddValueMerge | x-pack/plugin/esql/compute/src/test/java/org/elasticsearch/compute/OperatorTests.java:321 | adding a pair after a key-wise union is adding it to the second map before the union |
| Grouping.ExpectedValues | x-pack/plugin/esql/compute/src/test/java/org/elasticsearch/compute/OperatorTests.java:269-282 | the reference map is the value set per key of all indexed (key, value) pairs; documents without values leave no key |
| Grouping.AddRowValues | x-pack/plugin/esql/compute/src/test/java/org/elasticsearch/compute/OperatorTests.java:276-281 | one document's values are added under its key |
| Grouping.CollectValues | x-pack/plugin/esql/compute/src/test/java/org/elasticsearch/compute/OperatorTests.java:340-354 | the consumer succeeds exactly when no (key, value) pair repeats, then holds each key's value set; a failure names a pair that occurs at least twice among the emitted pairs |
| Grouping.CollectRow | x-pack/plugin/esql/compute/src/test/java/org/elasticsearch/compute/OperatorTests.java:347-351 | over one position, the `added` check holds exactly when the pairs so far stay duplicate-free; a failure names a pair occurring at least twice |
| Grouping.RepeatInRow | x-pack/plugin/esql/compute/src/test/java/org/elasticsearch/compute/OperatorTests.java:349-350 | a value already in its key's set means the emitted pairs repeat: its pair occurs at least twice |
| Grouping.FreshInRow | x-pack/plugin/esql/compute/src/test/java/org/elasticsearch/compute/OperatorTests.java:349-350 | a value new for its key keeps the pairs duplicate-free and is added to the key's set |
| Grouping.FinalValuesAreValues | x-pack/plugin/esql/compute/src/test/java/org/elasticsearch/compute/OperatorTests.java:314-321 | merging the INITIAL partials' value sets key by key, one partial after another, gives the value sets of all their pairs together |
| Grouping.KeyHasPair | x-pack/plugin/esql/compute/src/test/java/org/elasticsearch/compute/OperatorTests.java:280 | every key of a value map comes from some pair carrying it |
| Grouping.ValuesOfSamePairs | x-pack/plugin/esql/compute/src/test/java/org/elasticsearch/compute/OperatorTests.java:269-282 | the value sets depend only on which pairs occur, not on their order, repetition or split into partials |
| Grouping.OnePositionPerKeyDistinct | x-pack/plugin/esql/compute/src/test/java/org/elasticsearch/compute/OperatorTests.java:319-330 | FINAL rows with one position per key and distinct values per position repeat no pair |
| Grouping.CheckValuesGrouping | x-pack/plugin/esql/compute/src/test/java/org/elasticsearch/compute/OperatorTests.java:260-363 | the VALUES scenario: whenever the INITIAL partial rows together hold exactly the indexed pairs and the FINAL rows list their key-wise merge one position per key, `added` never fails and the consumer's map equals the reference |
| RangeRouting.ToInt32Narrows | x-pack/plugin/esql/compute/src/test/java/org/elasticsearch/compute/OperatorTests.java:417 | `(int)` narrowing lands in the int range, agrees modulo 2^32, and keeps int-sized values |
| RangeRouting.ScanQuery | x-pack/plugin/esql/compute/src/test/java/org/elasticsearch/compute/OperatorTests.java:375-383 | every row a query emits carries that query's tag, and a query emits no more rows than there are documents |
| RangeRouting.TaggedRows | x-pack/plugin/esql/compute/src/test/java/org/elasticsearch/compute/OperatorTests.java:375-377 | one row per document, tagged by the range its group falls in |
| RangeRouting.ScanAllThree | x-pack/plugin/esql/compute/src/test/java/org/elasticsearch/compute/OperatorTests.java:379-383 | the scan's rows are those of the three queries, one after another |
| RangeRouting.OneRangeHolds | x-pack/plugin/esql/compute/src/test/java/org/elasticsearch/compute/OperatorTests.java:371-373 | a long group value lies in exactly one of the three ranges |
| RangeRouting.ScanTagsEachDocOnce | x-pack/plugin/esql/compute/src/test/java/org/elasticsearch/compute/OperatorTests.java:371-383 | the scan emits every document exactly once, tagged with its range's tag |
| RangeRouting.Case | x-pack/plugin/esql/compute/src/test/java/org/elasticsearch/compute/OperatorTests.java:417-431 | a tag reaches a case exactly when its `(int)` narrowing is 0, 100 or 10000 |
| RangeRouting.SawMaxStep | x-pack/plugin/esql/compute/src/test/java/org/elasticsearch/compute/OperatorTests.java:420-428 | the `saw...Max` flag after one more row is the flag before or whether this row carries its case's maximum |
| RangeRouting.CheckRoutedRows | x-pack/plugin/esql/compute/src/test/java/org/elasticsearch/compute/OperatorTests.java:407-436 | the row check passes exactly when every row reaches a case within its maximum and each maximum was seen; an unknown group comes from a row reaching no case |
| RangeRouting.GeneratedRowPasses | x-pack/plugin/esql/compute/src/test/java/org/elasticsearch/compute/OperatorTests.java:443-457 | a generated document's tagged row passes its case |
| RangeRouting.ExtraDocsGenerated | x-pack/plugin/esql/compute/src/test/java/org/elasticsearch/compute/OperatorTests.java:460-462 | the three extra documents are generated documents too |
| RangeRouting.ScannedRowsPass | x-pack/plugin/esql/compute/src/test/java/org/elasticsearch/compute/OperatorTests.java:414-431 | every row of any order of the generated documents' tagged rows passes its case |
| RangeRouting.SawEachMax | x-pack/plugin/esql/compute/src/test/java/org/elasticsearch/compute/OperatorTests.java:460-462 | the extra document of each group makes its maximum appear |
| RangeRouting.RoutingScenarioPasses | x-pack/plugin/esql/compute/src/test/java/org/elasticsearch/compute/OperatorTests.java:434-436 | for all drawn documents and maxima, every scanned row passes and every maximum is seen |
| RangeRouting.CheckRangeRouting | x-pack/plugin/esql/compute/src/test/java/org/elasticsearch/compute/OperatorTests.java:365-468 | the range-tag scenario: the row check reports no error |
| DriverContexts.BlockFactory.constructor | x-pack/plugin/esql/compute/src/test/java/org/elasticsearch/compute/OperatorTests.java:578-580 | a new block factory holds no live block and its breaker is at zero |
| DriverContexts.BlockFactory.NewBlock | x-pack/plugin/esql/compute/src/test/java/org/elasticsearch/compute/OperatorTests.java:199 | allocating a block through the factory charges exactly its bytes to the breaker and keeps the breaker equal to the live blocks' bytes |
| DriverContexts.BlockFactory.ReleaseBlock | x-pack/plugin/esql/compute/src/test/java/org/elasticsearch/compute/OperatorTests.java:247 | releasing one live block removes it and refunds exactly its bytes |
| DriverContexts.BlockFactory.ReleasePage | x-pack/plugin/esql/compute/src/test/java/org/elasticsearch/compute/OperatorTests.java:247 | `page.releaseBlocks()` releases the page's blocks, the ones allocated last, and the breaker again counts exactly the remaining live blocks |
| DriverContexts.DriverContext.constructor | x-pack/plugin/esql/compute/src/test/java/org/elasticsearch/compute/OperatorTests.java:580 | a new context over a given block factory is unfinished and its snapshot reports no releasable |
| DriverContexts.DriverContext.AddReleasable | x-pack/plugin/esql/compute/src/test/java/org/elasticsearch/compute/OperatorTests.java:585 | registering a releasable appends it to what the snapshot reports and leaves the finished flag |
| DriverContexts.DriverContext.RemoveReleasable | x-pack/plugin/esql/compute/src/test/java/org/elasticsearch/compute/OperatorTests.java:585 | removing a releasable drops exactly that one from what the snapshot reports and leaves the finished flag |
| DriverContexts.DriverContext.Finish | x-pack/plugin/esql/compute/src/test/java/org/elasticsearch/compute/OperatorTests.java:584 | finishing sets the finished flag and leaves the releasables |
| DriverContexts.NewDriverContext | x-pack/plugin/esql/compute/src/test/java/org/elasticsearch/compute/OperatorTests.java:578-581 | `driverContext()` gives a fresh unfinished context with no releasables over a fresh factory whose breaker is at zero |
| DriverContexts.BreakerZeroIffNoLiveBytes | x-pack/plugin/esql/compute/src/test/java/org/elasticsearch/compute/OperatorTests.java:256 | the breaker reads zero exactly when every block still live is empty |
| DriverContexts.RunAndRelease | x-pack/plugin/esql/compute/src/test/java/org/elasticsearch/compute/OperatorTests.java:244-256 | a run whose operators are removed again and whose consumer releases every page's blocks passes `assertDriverContext` and leaves the breaker at zero |
| DriverContexts.LeakedBlockRun | x-pack/plugin/esql/compute/src/test/java/org/elasticsearch/compute/OperatorTests.java:252-256 | the two end-of-scenario checks are independent: a block never released passes `assertDriverContext` and only the breaker shows it |
| SourceLoaders.Nothing | server/src/main/java/org/elasticsearch/index/mapper/SourceLoader.java:283-311 | `NOTHING` has no stored-field loaders, no doc-values loader and never a value |
| SourceLoaders.NewSyntheticVectors | server/src/main/java/org/elasticsearch/index/mapper/SourceLoader.java:413-416 | the synthetic-vectors loader reads through the stored source, with the given filter |
| SourceLoaders.StoredAndSyntheticCapabilities | server/src/main/java/org/elasticsearch/index/mapper/SourceLoader.java:80-148 | stored: no reordering, no required stored fields; synthetic: reorders, and requires exactly its loader's stored-field names |
| SourceLoaders.SyntheticVectorsCapabilities | server/src/main/java/org/elasticsearch/index/mapper/SourceLoader.java:409-426 | synthetic vectors: no reordering, requires what its inner loader requires, which is nothing |
| SourceLoaders.NewSyntheticLeaf | server/src/main/java/org/elasticsearch/index/mapper/SourceLoader.java:187-194 | building a leaf succeeds exactly when no stored-field name is registered twice, and then registers exactly those names; a failure names a repeated one |
| SourceLoaders.Write | server/src/main/java/org/elasticsearch/index/mapper/SourceLoader.java:205-244 | `write` makes exactly the calls of its specification: loads, ignored values if any, doc-values advance if any, `prepare`, then the value or an empty object |
| SourceLoaders.LoadStoredFields | server/src/main/java/org/elasticsearch/index/mapper/SourceLoader.java:209-228 | the loop loads each registered field and ends with the ignored-value groups, or none when there was no ignored value |
| SourceLoaders.GroupIgnoredValues | server/src/main/java/org/elasticsearch/index/mapper/SourceLoader.java:215-226 | the inner loop extends the group map to the newly seen ignored values, creating it on the first value |
| SourceLoaders.LoadsOnlyRegistered | server/src/main/java/org/elasticsearch/index/mapper/SourceLoader.java:209-213 | a field's values reach a loader only when one is registered under its name, and every such field is loaded |
| SourceLoaders.IgnoredValuesPresent | server/src/main/java/org/elasticsearch/index/mapper/SourceLoader.java:214-218 | there are ignored values exactly when some `_ignored_source` field has a value |
| SourceLoaders.GroupIgnoredExact | server/src/main/java/org/elasticsearch/index/mapper/SourceLoader.java:219-225 | a decoded value sits in group p exactly when its parent is p and its path is not filtered; no group is empty |
| SourceLoaders.AddToGroupsMembers | server/src/main/java/org/elasticsearch/index/mapper/SourceLoader.java:220-225 | one decoded value is appended to its parent's group unless filtered; other groups are unchanged |
| SourceLoaders.WriteCallsMembers | server/src/main/java/org/elasticsearch/index/mapper/SourceLoader.java:205-244 | the calls `write` makes are exactly the loads, the ignored values when present, the advance when there are doc values, `prepare`, and the final write |
| SourceLoaders.WriteHandsOverIgnoredAndAdvances | server/src/main/java/org/elasticsearch/index/mapper/SourceLoader.java:229-234 | `setIgnoredValues` is called exactly when `_ignored_source` had a value, even if all were filtered; doc values advance exactly when there is a doc-values loader |
| SourceLoaders.WriteEndsWithPrepareAndValue | server/src/main/java/org/elasticsearch/index/mapper/SourceLoader.java:236-243 | after `prepare`, the loader's value is written when it has one, and an empty object otherwise |
| SourceLoaders.NothingWritesEmptyObject | server/src/main/java/org/elasticsearch/index/mapper/SourceLoader.java:283-311 | with `NOTHING` nothing is loaded or advanced and the document is an empty object |
| SyntheticVectorPatches.ExtractRelativePath | server/src/main/java/org/elasticsearch/index/mapper/SourceLoader.java:499-501 | an empty root gives the full path; otherwise the path after the root's length plus one, failing exactly when the path is shorter |
| SyntheticVectorPatches.RelativePathBelowRoot | server/src/main/java/org/elasticsearch/index/mapper/SourceLoader.java:499-501 | for a non-empty root, root + "." + rel gives rel |
| SyntheticVectorPatches.ApplyPatches | server/src/main/java/org/elasticsearch/index/mapper/SourceLoader.java:475-497 | `applyPatches` performs exactly the insertions of its specification, or fails with its first error |
| SyntheticVectorPatches.ApplyNested | server/src/main/java/org/elasticsearch/index/mapper/SourceLoader.java:480-492 | a nested patch's children are applied in the selected nested objects, under the nested full path |
| SyntheticVectorPatches.PatchEditsSucceedIffApplicable | server/src/main/java/org/elasticsearch/index/mapper/SourceLoader.java:475-497 | applying patches succeeds exactly when they are applicable, and then inserts every leaf value once, in order |
| SyntheticVectorPatches.PatchEditSucceedsIffApplicable | server/src/main/java/org/elasticsearch/index/mapper/SourceLoader.java:476-495 | one patch: a leaf or nested patch succeeds exactly when applicable, an offset patch never |
| SyntheticVectorPatches.ChildEditsSucceedIffApplicable | server/src/main/java/org/elasticsearch/index/mapper/SourceLoader.java:483-492 | a nested patch's children succeed exactly when all are offset patches within bounds whose own patches succeed |
| SyntheticVectorPatches.MisplacedPatchFails | server/src/main/java/org/elasticsearch/index/mapper/SourceLoader.java:487-494 | an offset patch at the top, or a non-offset child of a nested patch, fails the whole application |
| SyntheticVectorPatches.ChildOfRelative | server/src/main/java/org/elasticsearch/index/mapper/SourceLoader.java:499-501 | a path below its root is the root's child named by the relative path |
| SyntheticVectorPatches.PlacementsAppend | server/src/main/java/org/elasticsearch/index/mapper/SourceLoader.java:475-497 | the placements of two runs of insertions are those of each, one after the other |
| SyntheticVectorPatches.PatchEditsPlaced | server/src/main/java/org/elasticsearch/index/mapper/SourceLoader.java:475-497 | when every path lies below the object it is applied to, each leaf's value lands in the nested objects its offset patches select (each named by the nested field's full path and the offset) and in the field its full path names, its key being that path relative to the map it lands in; once each, in order, below the steps already taken |
| SyntheticVectorPatches.PatchEditPlaced | server/src/main/java/org/elasticsearch/index/mapper/SourceLoader.java:476-486 | a leaf patch inserts its value at its own full path in the current object; a nested patch places its leaves as its children say |
| SyntheticVectorPatches.ChildEditsPlaced | server/src/main/java/org/elasticsearch/index/mapper/SourceLoader.java:480-492 | each offset child of a nested patch places its leaves in the nested object at its offset (`nestedMaps.get(offset)`), one step below the current map, under the nested field's full path |
| SyntheticVectorPatches.ApplySyntheticVectors | server/src/main/java/org/elasticsearch/index/mapper/SourceLoader.java:462-466 | the patches applied from the top of the source map; the content type is kept |
| SyntheticVectorPatches.SyntheticVectorsPlaced | server/src/main/java/org/elasticsearch/index/mapper/SourceLoader.java:462-466 | patching a source from its top puts every leaf value at its place (the nested objects its offset patches select, then its full path), in order, after what the source held |
| SyntheticVectorPatches.LeafSourceIsPatchedSource | server/src/main/java/org/elasticsearch/index/mapper/SourceLoader.java:434-445 | without a patch loader the stored source is returned; with one, the result is the stored source with the document's patches applied (skipping an empty patch list agrees with applying it) |
| SyntheticVectorPatches.LeafWrite | server/src/main/java/org/elasticsearch/index/mapper/SourceLoader.java:447-450 | the synthetic-vectors leaf's `write` always fails with an illegal-state error |
| InferenceEndpointUpdate.CombineExistingModelWithNewSettings | x-pack/plugin/inference/src/main/java/org/elasticsearch/xpack/inference/action/TransportUpdateInferenceModelAction.java:209-249 | fails with BAD_REQUEST exactly on a task-type mismatch; otherwise keeps id and task type, takes the service name, and applies the three settings rules |
| InferenceEndpointUpdate.CombineKeepsWhatIsNotUpdated | x-pack/plugin/inference/src/main/java/org/elasticsearch/xpack/inference/action/TransportUpdateInferenceModelAction.java:219-234 | an update without settings changes only the service name; in-cluster service settings stay in-cluster |
| InferenceEndpointUpdate.IsInClusterService | x-pack/plugin/inference/src/main/java/org/elasticsearch/xpack/inference/action/TransportUpdateInferenceModelAction.java:325-327 | true exactly for the two internal service names |
| InferenceEndpointUpdate.CheckEndpointExists | x-pack/plugin/inference/src/main/java/org/elasticsearch/xpack/inference/action/TransportUpdateInferenceModelAction.java:353-372 | a found endpoint passes; a missing one or a not-found failure becomes entity-not-found; other failures pass unchanged |
| InferenceEndpointUpdate.UpdateInClusterEndpoint | x-pack/plugin/inference/src/main/java/org/elasticsearch/xpack/inference/action/TransportUpdateInferenceModelAction.java:251-350 | a model without a deployment is an illegal state; a deployment without assignments is not-found, a foreign deployment is refused with `ForeignDeploymentRefusal` and non-internal new settings are BAD_REQUEST, each without writes; anything written is for an endpoint that is its own assigned deployment with internal settings, the deployment first, and any registry write is the new model over the existing one; success writes the deployment then the registry and returns the registry's answer; an own assigned deployment with internal settings goes through `UpdateOwnDeployment` |
| InferenceEndpointUpdate.ForeignDeploymentRefusal | x-pack/plugin/inference/src/main/java/org/elasticsearch/xpack/inference/action/TransportUpdateInferenceModelAction.java:262-290 | CONFLICT naming the creating endpoint, or CONFLICT saying the trained models API created it; any other lookup failure propagates unchanged, and an empty answer is a null dereference |
| InferenceEndpointUpdate.UpdateOwnDeployment | x-pack/plugin/inference/src/main/java/org/elasticsearch/xpack/inference/action/TransportUpdateInferenceModelAction.java:292-311 | the deployment is updated first, and the registry only once that succeeds |
| InferenceEndpointUpdate.OwnDeploymentOutcomes | x-pack/plugin/inference/src/main/java/org/elasticsearch/xpack/inference/action/TransportUpdateInferenceModelAction.java:292-311 | for an endpoint updating its own assigned deployment with internal settings: a failed deployment update is the result with that one write; otherwise both writes happen and the registry's answer, failure included, is the result |
| InferenceEndpointUpdate.MasterOperation | x-pack/plugin/inference/src/main/java/org/elasticsearch/xpack/inference/action/TransportUpdateInferenceModelAction.java:110-198 | a missing endpoint, an unknown service (INTERNAL_SERVER_ERROR naming it) and a task-type mismatch (BAD_REQUEST) fail without writes; otherwise the writes are those of the in-cluster path or the single registry transaction, and a registry write is the merged model over the existing one; a `false` update fails with "Failed to update model"; after a `true` update a missing endpoint fails with "updated model not found", a failed lookup with its error, and a found one answers the configurations parsed from its settings with the resolved task type; a failed write step (a registry failure, or any refusal or failure of the in-cluster path) is the response |

## Left out

- Lucene index access (writers, readers, searchers, collectors) is replaced by leaves of doc ids with bases and a query predicate.
- The operator implementations are not modelled, only the output contracts their scenarios assert: Lucene source slicing, ordinal grouping, hash aggregation, block hashing and the row-in-table lookup.
- Parallel driver execution is concurrency; tasks run one after another and the collector's set ignores interleaving.
- Random inputs (documents, keys, page sizes, partitioning, maxima) are universally quantified parameters.
- `MockBigArrays` and the breaker internals are reduced to a byte counter over the live blocks of the block factory; big arrays are not modelled.
- `DriverContext.addReleasable`/`removeReleasable` and the snapshot are modelled only as the list of releasables the snapshot reports; DriverContext.java is not part of this model.
- Logging and the `toString` of pages and operators are left out.
- The stored loader's `source`/`write` (bytes from the stored `_source`, XContent serialisation) and `Source.fromBytes`/`fromMap` are I/O; the synthetic-vectors leaf takes the stored source as a value.
- `LeafWithMetrics` reads clocks for latency metrics; it is left out.
- `IgnoredSourceFieldMapper.decode`, the filter's `isPathFiltered` and the field loader's `hasValue` are function parameters.
- SyntheticVectorPatches.PatchEditsPlaced: stated only for patch trees whose every path lies below the object it is applied to, as the patch builders produce them; `extractRelativePath` does not compare the prefix, so other trees land where their path lengths say.
- `insertValue`, `extractNestedSources` and `nodeMapValue` are not modelled. `applyPatches` yields the insertions with the nested steps that reach their map, and the number of nested objects is a parameter. In-place update and aliasing of the source map are therefore not captured.
- SyntheticVectorPatches.ExtractRelativePath: lengths are counted in characters, while Java's `length()` and `substring` count UTF-16 code units; for a path holding a character outside the Basic Multilingual Plane the two disagree on where the relative path starts and on whether the path is too short.
- SyntheticVectorPatches.ApplyPatches: the error messages keep the source's text, but the exception classes of `substring` and `List.get` become `StringIndexOutOfBounds` and `IndexOutOfBounds` values. `extractNestedSources` answering null (whose `.get` then throws a `NullPointerException`) or throwing itself is not modelled: the number of nested objects is a parameter, so a missing or non-list nested field can only appear as zero objects, which fails with `IndexOutOfBounds(offset, 0)`.
- InferenceEndpointUpdate.MasterOperation: the license check, cluster blocks, `resolveTaskType` (the resolved task type is a parameter), the RPC client and `ModelRegistry` persistence are oracles or left out; exceptions thrown by `parsePersistedConfig*` are not modelled.
- The `Messages.*` texts live in a message table outside this model; `Text` gives their keys, and the literal texts of this file as written.
- InferenceEndpointUpdate.UpdateInClusterEndpoint: the illegal-state message leaves out the model's class name.
- InferenceEndpointUpdate.IsInClusterService: the two internal service names are taken as "elasticsearch" and "elser"; ElasticsearchInternalService is not part of this model.
- InferenceEndpointUpdate.ForeignDeploymentRefusal: a registry `getModel` that answers with no model is dereferenced by the source; it is modelled as a `NullPointer` failure rather than CONFLICT.
- Only in-cluster internal models carry a deployment id; "is an `ElasticsearchInternalModel`" is modelled as having one.
