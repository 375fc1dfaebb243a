# P3A shuffler core, modelled in Dafny

This project models the core of Brave's P3A shuffler. The shuffler is a
k-anonymity service: it collects P3A measurements, files them by crowd ID in
a briefcase, and shuffles them out in batches. The model also covers its
Nested STAR simulation and the script that replays stored measurements.

The model has eight modules, one per file:

- `Measurement` (measurement.dfy) covers:
  - the validity check;
  - the high-entropy-first and high-entropy-last attribute orderings, for the
    attribute sets All, Refactored and Minimal;
  - Brave's `major.minor.patch` versions: parsing, `newerThan`, `isEqual`;
  - the per-channel table of the latest version seen, which
    `isRecentVersion` reads and moves forward. It is a class,
    `LastVersions`, whose methods update the table in place;
  - the CSV header and record.
- `Star` (star.dfy) covers the Nested STAR simulation:
  - the counting trie, as the pointer structure the Go code mutates
    (`Node`, a class with a footprint). It is tied by `Node.Valid()` to the
    value it stands for (`Trie`);
  - `Add`, recursive `Aggregate` and the tag and node counts;
  - `AggregationState` and its updates;
  - `NestedSTAR.AddReports` and `NestedSTAR.Aggregate`.
- `StarExamples` (star_examples.dfy) works out the tree of the Nested STAR
  unit tests: it proves the node, tag and leaf-tag counts and the
  aggregation that star_test.go expects.
- `Briefcases` (briefcase.dfy) covers the `Briefcase`, a class holding a map
  from crowd ID to the reports filed under it. Its operations are `Add`,
  `Empty`, `NumCrowdIDs`, `NumReports`, `DumpFewerThan` and `Shuffle`.
  `Shuffle` gathers every list and then runs the Fisher–Yates swap loop on
  an array.
- `Replay` (replay.dfy) covers the replay script's `S3FileReader` iterator:
  - the pending paths and the cache of extracted measurements;
  - the leftmost-match search for `'([^']+)'`;
  - the loop that posts each measurement as `"[" + m + "]"`.
- `Wrappers`, `Folds` and `Text` are support modules:
  - `Folds` folds a finite key set under a commutative monoid. Go visits a
    map's keys in an unspecified order; each loop over a map is a method
    that picks `var k :| k in remaining`, specified by that fold. `FoldRemove`
    proves that the visiting order does not matter.
  - `Text` models Go's `strings.Split`, `strconv.Atoi` and `%d` formatting.

Every loop over a map picks the next key nondeterministically, and so does
`Shuffle`'s swap partner, which can be any index in `[0, i]`. Nothing in the
model depends on how these choices fall.

Two details of the replay script's `S3FileReader` shape what it posts:

- Files are read in *ascending* path order: `__iter__` sorts the paths in
  descending order, and `__next__` takes them with `pop()` from the end.
- A file yields one value per line, and each value is the match found in the
  file's *first* line, because the extractor searches `file_content[0]` on
  every iteration.

## Model

| member | source | states |
|---|---|---|
| Measurement.ValidityConditions | measurement.go:58-81 | a measurement is valid iff both years are at least 1970, both weeks lie in 1..53, the metric value is non-negative, and metric name, platform, version and channel are non-empty |
| Measurement.ValidityIgnoresCountryAndRefCode | measurement.go:58-81 | changing the country code or the referral code never changes validity |
| Measurement.ClearedMetricNameIsInvalid | measurement.go:58-81 | a measurement with an empty metric name is invalid |
| Measurement.SampleMeasurementIsValid | measurement_test.go:67-76 | the test's sample is valid, and becomes invalid once its metric name is cleared |
| Measurement.Attributes | measurement.go:108-153 | the ordering has 11, 10 or 7 attributes for All, Refactored and Minimal, and starts with the metric name and the decimal metric value |
| Measurement.MirrorAttributes | measurement.go:156-165 | the loop that builds the high-entropy-last ordering produces the mirrored ordering |
| Measurement.MirroredAttributes | measurement.go:156-165 | high-entropy-last has the same length as high-entropy-first, keeps its first two attributes, and lists the rest in reverse |
| Measurement.NewerThanIsStrictOrder | measurement.go:177-196 | newerThan is irreflexive and transitive |
| Measurement.VersionTrichotomy | measurement.go:177-202 | isEqual is equality; of newer, older and equal exactly one holds |
| Measurement.NewVersion | measurement.go:205-224 | parsing succeeds iff the string has at least three dot-separated parts and the first three are integers; the version is those three integers |
| Measurement.NewVersionOfFormatVersion | measurement.go:205-224 | parsing a printed version gives the version back |
| Measurement.NewVersionTooFewComponents | measurement.go:205-224 | "1.2" fails, because the third component is missing |
| Measurement.NewVersionNotANumber | measurement.go:205-224 | "1.x.3" fails on the component "x" |
| Measurement.NewVersionEmpty | measurement.go:205-224 | the empty string fails on its single empty component |
| Measurement.VersionParseExamples | measurement_test.go:86-122 | the version strings of the unit test parse to the expected versions |
| Measurement.VersionComparisonExamples | measurement_test.go:86-122 | the unit test's newerThan and isEqual comparisons hold |
| Measurement.NeverOlderTransitive | measurement.go:232-249 | "no channel went back" composes over successive tables |
| Measurement.IsRecent | measurement.go:232-249 | an unknown channel or an empty version gives false and leaves the table as it was; an unparsable version is an error; otherwise the answer is "not older than the table's version", only this channel can change, and it changes exactly when the new version is newer |
| Measurement.IsRecentCallsNeverOlder | measurement.go:232-249 | across any run of calls, no channel's latest version ever goes back, and there is one answer per call |
| Measurement.IsRecentFormatted | measurement.go:232-249 | for a known channel and a printed version: the answer is true iff the version is not older, and the channel moves forward to the version iff it is newer |
| Measurement.IsRecentCallsNewer | measurement.go:232-249 | a call with a newer version answers true and moves the channel forward before the rest of the run |
| Measurement.IsRecentCallsNotNewer | measurement.go:232-249 | a call with a version that is not newer keeps the table and answers whether the version is equal |
| Measurement.ReleaseVersionsPrinted | measurement_test.go:86-122 | the unit test's release versions, printed |
| Measurement.IsRecentReleaseRun | measurement_test.go:86-122 | versions v1 < v2 < v3 > v4, then v3 again, on one channel answer true, true, true, false, true, and leave the channel at v3 |
| Measurement.UnitTestReleaseRun | measurement_test.go:86-122 | the unit test's run from the initial table answers true, true, true, false, true and leaves "release" at 1.0.0 |
| Measurement.HighEntropyFirst | measurement.go:108-153 | with All the table is untouched and the result is the All ordering; with Minimal or Refactored it fails exactly when isRecentVersion does, and otherwise appends isRecentVersion's answer to the ordering and takes on its new table; the table never goes back |
| Measurement.HighEntropyLast | measurement.go:156-165 | fails exactly when high-entropy-first does; otherwise it is the mirror of high-entropy-first |
| Measurement.LastVersions.constructor | measurement.go:22-31 | every one of the eight channels starts at version 0.0.0 |
| Measurement.LastVersions.IsRecentVersion | measurement.go:232-249 | the answer and the new table are those of IsRecent on the old table |
| Measurement.LastVersions.OrderHighEntropyFirst | measurement.go:108-153 | the ordering and the new table are those of HighEntropyFirst on the old table |
| Measurement.LastVersions.OrderHighEntropyLast | measurement.go:156-165 | the ordering and the new table are those of HighEntropyLast on the old table |
| Measurement.CSVHeaderColumns | measurement.go:253-255 | the header splits on commas into the eleven column names, with ten commas |
| Measurement.CSVMatchesHeader | measurement.go:253-265 | when no string field holds a comma, a record splits into its eleven fields in header order and has as many commas as the header |
| Star.TrieAdd | star.go:198-216 | adding a sequence adds its first value to the node's keys, adds one to that value's count (or starts it at 1), and creates a next node exactly when the sequence goes on; other values are untouched |
| Star.TrieAddChild | star.go:207-215 | the rest of the sequence is added to the value's next node, or to a new empty one |
| Star.EmptyTrieCounts | star.go:218-251 | an empty node has no tags, no leaf tags and one node, and is well counted |
| Star.TotalAfterAdd | star.go:198-216 | each Add counts one more sequence at the root |
| Star.AddKeepsWellCounted | star.go:198-216 | after Add, every count is still at least 1 and at least the total of the node below it |
| Star.AddAllCounts | star.go:39-50 | a run of adds counts one sequence per add and keeps the trie well counted |
| Star.Nodes | star.go:229-238 | NumNodes is at least one |
| Star.TagsLeavesNodes | star.go:218-251 | tags = leaf tags + nodes − 1 |
| Star.LeafTagsAtMostTags | star.go:218-251 | there are never more leaf tags than tags |
| Star.MergeAdd | star.go:130-146 | merging two length maps gives the union of their keys, each mapped to the sum of its counts, an absent key counting as zero |
| Star.MergeAddUnitCommutative | star.go:139-146 | merging with an empty map changes nothing; merging is commutative |
| Star.MergeAddAssociative | star.go:139-146 | merging is associative |
| Star.AggPlusIsCommutativeMonoid | star.go:139-146 | Augment is associative and commutative, and a fresh state is its unit, so the order of map iteration does not matter |
| Star.SumValuesMerge | star.go:139-157 | merging length maps adds their totals |
| Star.SumValuesSingle | star.go:130-137 | one length entry totals its value |
| Star.UnlockedLensAddUp | star.go:180-192 | one value's contribution keeps the per-length counts summing to the measurements already counted |
| Star.AggLensAddUp | star.go:159-196 | in every aggregation, the per-length partial counts sum to the measurements already counted |
| Star.AggNoPartialBelowRoot | star.go:188-191 | below the root, no measurement is counted as partial |
| Star.AggPartialAtRoot | star.go:180-192 | at the root, the partial measurements are exactly those newly unlocked |
| Star.RootAggAddsUp | star.go:151-196 | AddsUp holds of every root aggregation |
| Star.AggCountsEachOnce | star.go:159-196 | full plus already-counted measurements sum to the counts of the values that meet the threshold |
| Star.RootAggAtMostTotal | star.go:159-196 | full plus partial measurements never exceed the number of sequences added |
| Star.AggFoldRemove | star.go:164-193 | one iteration of Aggregate's loop moves a value's contribution from the values remaining into the state |
| Star.AggDeepStep | star.go:180-192 | the deep branch's three updates (Augment, AddLenTags, then the counters) add exactly the value's contribution |
| Star.AggregationState.constructor | star.go:120-124 | a new state has zero counters and no lengths |
| Star.AggregationState.AddLenTags | star.go:130-137 | adds the value to the key's count, an absent key counting as zero; nothing else changes |
| Star.AggregationState.Augment | star.go:139-146 | the new state is the old state augmented by s2's state |
| Star.AggregationState.AddsUp | star.go:151-157 | true iff the per-length partial counts sum to the partial measurements |
| Star.Node.constructor | star.go:205-206 | a new node is valid and empty |
| Star.Node.Add | star.go:198-216 | the node stays valid and now stands for the old trie with the sequence added |
| Star.Node.AddBelow | star.go:207-215 | the value's next node, created if absent, stands for its old trie with the rest added; no sibling changes |
| Star.Node.Aggregate | star.go:159-196 | the state returned is the aggregation of the node's trie at depth len(m) + 1, whatever order the values are visited in |
| Star.Node.AccountValue | star.go:164-193 | after one more value is visited, the state plus what the values still to visit contribute is still the whole aggregation |
| Star.Node.AggregateValue | star.go:164-193 | one iteration adds exactly the value's contribution to the state |
| Star.Node.AggregateAsChild | star.go:180-192 | aggregating the next node and updating the state adds the value's contribution |
| Star.Node.NumTags | star.go:218-227 | NumTags counts the values in this node and every node below it |
| Star.Node.NumNodes | star.go:229-238 | NumNodes counts this node and every node below it |
| Star.Node.NumLeafTags | star.go:240-251 | NumLeafTags counts the values, here and below, that have no next node |
| Star.OrderOne | star.go:44-48 | an ordering has at least two attributes, never moves the table back, and fails exactly when high-entropy-first does |
| Star.OrderAll | star.go:42-49 | a run gives one ordering of at least two attributes per report and never moves the table back |
| Star.OrderAllStep | star.go:42-49 | a run from report i is that report's ordering followed by the run from report i + 1, or that report's failure |
| Star.ProgressStep | star.go:42-49 | one more report keeps the loop invariant, or the whole run fails with that report's error |
| Star.OrderAllWithoutVersions | measurement.go:108-124 | with the attribute set All, a run never fails and never touches the table |
| Star.TrieAddAllSnoc | star.go:42-49 | a run of adds followed by one more add is the longer run |
| Star.AddAll | star.go:42-49 | the loop fails exactly when the run of orderings does; on success the trie gets every ordering, in order, and the table is the run's final table |
| Star.AddNext | star.go:43-48 | one iteration adds the report's ordering to the trie and keeps the invariant, or stops with the run's error and the trie unchanged |
| Star.OrderNext | star.go:44-48 | the configured order picks high-entropy-first or high-entropy-last, and the table moves on accordingly |
| Star.Frac | star.go:52-57 | frac(a, b) is a/b, and 0 when b is 0 |
| Star.FracSumAtMostOne | star.go:52-57 | two shares of one whole that together do not exceed it sum to at most one |
| Star.LenPartialRows | star.go:66-78 | one row per length 1..numAttrs, each the partial count of that length, or 0 when absent |
| Star.NestedSTAR.constructor | star.go:28-35 | an empty root, the configured threshold and order, and no measurements |
| Star.NestedSTAR.AddReports | star.go:39-50 | counts every report as a measurement; fails exactly when a version cannot be parsed; otherwise adds each ordering to the trie in turn, so the trie's total grows by the number of reports |
| Star.NestedSTAR.Aggregate | star.go:62-100 | gives the root aggregation; AddsUp is always true; one partial count per length; the full and partial shares sum to at most one; leaf tags never exceed tags |
| StarExamples.ReportsBuildRoot | star_test.go:19-41 | the tests' eleven measurements, added in order to an empty node, build the tree with US counted 10 times (release 8, nightly 1, beta 1; under release windows 5, linux 2, macos 1) and CA once |
| StarExamples.RootCounts | star_test.go:81-102 | that tree has 7 nodes and 6 leaf tags |
| StarExamples.TestTreeCounts | star_test.go:81-102 | the tree the tests build has 7 nodes, 12 tags and 6 leaf tags |
| StarExamples.RootAgg | star_test.go:43-62 | with 3 attributes and threshold 5 that tree aggregates to 5 full and 5 partial measurements, 2 partial at length 1 and 3 at length 2 |
| StarExamples.TestTreeAggregate | star_test.go:43-62 | the tree the tests build aggregates to 5 full and 5 partial measurements, with partial lengths {1: 2, 2: 3} |
| Briefcases.PoolSize | briefcase.go:35-67 | the bag of all reports holds exactly NumReports reports |
| Briefcases.FiledShape | briefcase.go:86-96 | Add puts the report at the end of its crowd ID's list, or starts a list of one for a new ID, and leaves every other ID alone |
| Briefcases.FiledCounts | briefcase.go:86-96 | Add raises NumReports by exactly one, and NumCrowdIDs by one exactly when the ID is new |
| Briefcases.FiledPool | briefcase.go:86-96 | Add puts the report, and nothing else, into the pool of reports |
| Briefcases.DecimalInjective | briefcase_test.go:13 | distinct numbers get distinct decimal crowd IDs |
| Briefcases.FullFilingIDs | briefcase_test.go:8-18 | the fixture's crowd IDs are the decimal names of 0 .. min(n, k) − 1 |
| Briefcases.FullFilingReports | briefcase_test.go:8-18 | the fixture holds n reports |
| Briefcases.FullFilingCounts | briefcase_test.go:20-38 | n reports over k decimal IDs give NumReports = n and NumCrowdIDs = min(n, k); 100 reports over 2 IDs give 100 and 2 |
| Briefcases.KeptExactly | briefcase.go:72-83 | DumpFewerThan keeps exactly the crowd IDs with at least min reports, and leaves their lists unchanged |
| Briefcases.KeptIdempotent | briefcase.go:72-83 | dumping twice with the same minimum removes nothing more |
| Briefcases.KeptNothingShort | briefcase_test.go:50-52 | when every list has at least min reports, nothing is dumped |
| Briefcases.KeptTwice | briefcase_test.go:54-63 | dumping with one minimum and then another is dumping with the larger |
| Briefcases.KeptCounts | briefcase.go:72-83 | dumping never adds reports or crowd IDs |
| Briefcases.KeptExceptStep | briefcase.go:76-82 | visiting one ID deletes it iff its list is shorter than min, whatever order the IDs are visited in |
| Briefcases.Briefcase.constructor | briefcase.go:15-19 | a new briefcase is empty |
| Briefcases.Briefcase.Empty | briefcase.go:21-26 | afterwards the briefcase is empty |
| Briefcases.Briefcase.Add | briefcase.go:86-96 | the new map is the old one with the report filed (see FiledShape, FiledCounts, FiledPool) |
| Briefcases.Briefcase.DumpFewerThan | briefcase.go:72-83 | the new map keeps exactly the crowd IDs with at least min reports (see KeptExactly) |
| Briefcases.Briefcase.NumCrowdIDs | briefcase.go:28-33 | the number of crowd IDs |
| Briefcases.Briefcase.NumReports | briefcase.go:35-44 | the number of reports over all crowd IDs, whatever order the lists are summed in |
| Briefcases.Briefcase.Shuffle | briefcase.go:47-67 | the result is a permutation of all reports, of length NumReports, for every choice of swap partners; the briefcase is unchanged |
| Briefcases.Gather | briefcase.go:51-54 | concatenating the lists in any key order gives every report exactly once |
| Briefcases.Swap | briefcase.go:63 | the swap exchanges two elements and keeps the elements as a bag |
| Replay.QuoteAfter | scripts/replay-p3a-data.py:54 | finds the first quote at or after k, or reports that there is none |
| Replay.MatchAtFirstQuote | scripts/replay-p3a-data.py:54 | a match at a position ends at the first quote after it, so a position has at most one match |
| Replay.QuotedFromIsLeftmost | scripts/replay-p3a-data.py:54 | the search returns the leftmost match of '([^']+)', and returns nothing exactly when no position matches |
| Replay.FirstQuotedIsLeftmost | scripts/replay-p3a-data.py:54 | the extracted value is a leftmost match, non-empty and free of quotes; there is no value only when the line has no match |
| Replay.ExtractedShape | scripts/replay-p3a-data.py:50-58 | a file yields one value per line when its first line has a match, and nothing otherwise; every value is that match |
| Replay.ExtractMeasurements | scripts/replay-p3a-data.py:50-58 | the extraction loop yields Extracted(lines) |
| Replay.FilePaths | scripts/replay-p3a-data.py:25-26 | a path is listed iff it is the directory joined with the name of a regular-file entry; there are no more paths than entries |
| Replay.FilePathsAppend | scripts/replay-p3a-data.py:25-26 | the paths keep the listing's order: the paths of a + b are those of a followed by those of b |
| Replay.BelowIrreflexive | scripts/replay-p3a-data.py:27 | no path sorts before itself |
| Replay.BelowTransitive | scripts/replay-p3a-data.py:27 | the string order is transitive |
| Replay.BelowTotal | scripts/replay-p3a-data.py:27 | any two distinct paths are ordered one way or the other |
| Replay.SortDescendingSorts | scripts/replay-p3a-data.py:27 | sorting gives a descending permutation of the paths |
| Replay.PopTakesLeast | scripts/replay-p3a-data.py:27-35 | popping the end of the descending list takes a least path and leaves a descending list, so files are read in ascending order |
| Replay.Advance | scripts/replay-p3a-data.py:30-44 | a non-empty cache gives its first measurement and keeps the files; iteration stops, changing nothing, iff cache and files are both empty; otherwise exactly the last file is popped, and the step is a read error iff that path cannot be read, an IndexError iff the file is readable but yields no measurement; a step that returns a measurement shrinks the files or the cache |
| Replay.AdvancePop | scripts/replay-p3a-data.py:34-44 | with nothing cached, next returns the last file's first measurement and caches the others |
| Replay.Drain | scripts/replay-p3a-data.py:63 | the iteration ends without a value: it stops, or raises |
| Replay.DrainAll | scripts/replay-p3a-data.py:24-44 | when every file yields, iteration produces the cache, then each file's values in order, then stops |
| Replay.DrainPop | scripts/replay-p3a-data.py:34-44 | with nothing cached, iteration produces the last file's values and then the rest's |
| Replay.DrainStops | scripts/replay-p3a-data.py:30-44 | iteration ends normally iff every remaining file can be read and yields a value |
| Replay.Body | scripts/replay-p3a-data.py:66 | the body is the measurement between "[" and "]" |
| Replay.Bodies | scripts/replay-p3a-data.py:63-66 | one body per measurement, in order |
| Replay.S3FileReader.constructor | scripts/replay-p3a-data.py:19-22 | the reader keeps the directory and starts with no files and no cache |
| Replay.S3FileReader.Iter | scripts/replay-p3a-data.py:24-28 | the pending paths are the regular files' paths, sorted in descending order; the cache is kept |
| Replay.S3FileReader.Next | scripts/replay-p3a-data.py:30-44 | one call of next, as Advance describes it |
| Replay.ReplayData | scripts/replay-p3a-data.py:61-66 | the bodies posted are those of every measurement the reader produces, in order; the replay ends normally iff every file yields |
| Replay.PostAll | scripts/replay-p3a-data.py:63-66 | the loop posts one body per measurement until the reader stops or raises |

## Left out

- Concurrency is not modelled: the briefcase's mutex, and the inbox channel and WaitGroup of `NestedSTAR`.
- Logging (`elog.Printf`) is not modelled.
- The lines `NestedSTAR.Aggregate` prints are not modelled. Their values are returned instead (the rows, the shares, the tag counts); the attribute-set label is left out.
- Star.NestedSTAR.Aggregate: returns the shares as reals and as fractions, not as the float64 percentages that are logged.
- The error exits `elog.Fatalf` and the index panics in `newVersion` are modelled as an `Err` result that stops the run.
- Measurement.Attributes: an attribute-set number other than the three constants is excluded by a precondition. In the source it is a fatal configuration error, not a data-driven path.
- Go's `int` is modelled as an unbounded integer, so 64-bit overflow of counters is not modelled. `Atoi` does reject values outside the 64-bit range, as Go's does.
- `NodeInfo` is a Go pointer that is never shared. It is modelled as a value in the node's map.
- Briefcases.Briefcase.Shuffle: the random source is a nondeterministic choice, so the uniformity of the shuffle is not stated, and the error path of `crypto/rand` is not modelled.
- Reports are Go pointers. The model uses values, so it captures which reports are returned but not their pointer identity.
- `CrowdID`, `Payload` and `String` (measurement.go:85-103, 268-280) are not part of this model.
- The rest of the service is not part of this model: the web API, the forwarder, the multiplexer, the crypto helpers, the simulation driver and main.
- In the replay script, I/O is modelled through parameters:
  - the directory listing is given as entries with an "is a regular file" flag;
  - file contents are a map from path to lines, read when a path is popped;
  - a path missing from that map is a read error.
- `requests.post` is modelled by collecting the bodies that would be posted, in order. HTTP itself is not modelled.
- `os.path.join` is modelled for names without a slash, which is what `os.listdir` returns.
- Python's `sorted` is modelled by insertion sort on code-point order. That order is the same as the order of Python's string comparison.
