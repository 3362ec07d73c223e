# LeanSignal agent: a Dafny model

This project models the parts of the LeanSignal agent that decide which telemetry leaves a host and how the backend
learns what exists, and proves what those parts promise. It covers:

- the selector language: a byte scanner, its grammar, and the meaning of a selector on a label set;
- the Prometheus label view of an OTLP series, and the fingerprint text under which series are indexed;
- the metrics tracker, the demand filter (name mode and selector mode) and the name-level accounting of demand;
- the known and discovered series caches, with the eight-hour sample ring;
- the request/acknowledgement layer and the index-sync protocol on top of it, as state machines in which receivers,
  processors, timeouts and the server interleave freely;
- the ingest back-off valve, per-rule trace routing, and transactional config writes on a disk that may fail or stop at
  any operation.

`dafny verify dfyconfig.toml` checks the whole project.

## How it is built

| file | models |
|---|---|
| `Picks.dfy` | what it means to filter a list: the survivors in order, by their positions |
| `Text.dfy` | strings, joining and splitting, hexadecimal; the library functions the agent calls, as parameters |
| `GoQuote.dfy` | Go string literals: quoting and unquoting |
| `Selector.dfy` | selectors: meaning, reading, grammar |
| `SelectorScanner.dfy` | the scanner as it runs, proved equal to the reading functions |
| `PromNaming.dfy` | label normalisation and the label view of a series |
| `Fingerprint.dfy` | sorted labels and the fingerprint text |
| `Telemetry.dfy` | batches, and the series a batch is exported as |
| `DemandFilter.dfy` | compiled selectors and the nested in-place filter |
| `DemandProcessor.dfy` | the filter as a component: the two modes and the compile cache |
| `Tracker.dfy` | the metrics tracker's per-batch counts |
| `DemandMatcher.dfy` | name-level accounting of demand |
| `SampleRing.dfy`, `KnownCache.dfy`, `KnownRuns.dfy` | the known cache: ring, operations, runs |
| `DiscoveredCache.dfy` | the discovered cache and the IndexCreate message |
| `Correlation.dfy`, `IndexSync.dfy`, `SyncRuns.dfy` | request ids and acknowledgements; the sync protocol; an acknowledged round, and a race |
| `IngestBackoff.dfy` | the valve that pauses ingest after a 403 |
| `TraceRouting.dfy` | trace filtering, stamping and grouping, with both caches |
| `ConfigSources.dfy`, `ConfigManager.dfy` | config sources, and remote config writes |

Loops and objects of the source are methods and classes here, each proved equal to a function; the theorems are about
those functions. `Library` holds what the agent takes from elsewhere and the model leaves open: regular expressions and
the Unicode classes beyond ASCII. The hash of a fingerprint is a parameter. A metric of no type has no datapoints
(`Typed`), which the OTLP data model guarantees.

In five places the code does less than its comments or its design suggest. The model follows the code:

- `components/edgecontroller/demand_matcher.go:168-170` calls `familyNameVariants` the inverse of `expandDemandNames`.
  It is not for names like `a_sum_count`; `InverseFails` gives the names and `InverseExactly` the exact condition.
- Name-level accounting covers every series the filter keeps only for names whose base is not itself a component name
  (`SelectorCountCompleteIff`, `NameCountCompleteIff`).
- The one-entry caches are keyed by a joined list, and the key does not determine the list: it is ambiguous as soon as
  the list has two entries or one containing a NUL (`JoinAmbiguousIff`), and for routing tables also when an id or a
  selector contains `=`, as every selector does (`RouteKeyAmbiguousIff`). What keeps the caches right is that NUL-free
  lists, and tables that besides have no `=` in an id, are never taken for one another (`FreeTwinIff`, `PlainTwinIff`,
  `RouteKeyInjective`). `NulCollision` and `RouteCollision` are lists and tables for which a cache gives the wrong answer.
- `components/edgecontroller/config_manager.go:329-331` says an error means nothing was written. A refused write never
  changes a config file, but when the final rename fails the backup has already been overwritten, in whole or in part.
  `RefusalCanChangeIff` says on which disks that can happen, and `RefusalLosesBackup` gives one.
- At lock granularity a series can be known to the agent and deleted at the backend. `KnownKeysIndexed` holds of the runs
  in which no delete round is completed while a receiver holds one of its keys; `LateUpdateLawfulIff` and
  `SomeRunStrandsKey` show what happens otherwise.

## Model

| member | source | states |
|---|---|---|
| GoQuote.QuoteRoundTrip | components/metricstracker/collector_timeseries.go:150-177 | unquoting a quoted string gives it back, for every string and whatever counts as printable |
| GoQuote.PlainLiteralReads | components/selectormatch/selector.go:265-294 | a literal without quotes, backslashes or newlines denotes its own text |
| GoQuote.EscapeDenotes | components/selectormatch/selector.go:265-294 | the code point each simple escape stands for |
| GoQuote.HexEscapeDenotes | components/selectormatch/selector.go:265-294 | a numeric escape stands for the number its digits write |
| Selector.OperatorsExact | components/selectormatch/selector.go:71-91 | what each operator says of a label, present or absent: negations are exact opposites, an absent label is empty, a pattern must match the whole value |
| Selector.MatchesEach | components/selectormatch/selector.go:99-106 | a selector matches exactly when each of its matchers does |
| Selector.TokenRead | components/selectormatch/selector.go:265-294 | every literal that unquotes is read whole by the scanner's two-character escape skip, whatever follows it |
| Selector.ScannerFollowsEscape | components/selectormatch/selector.go:265-294 | skipping two characters at a backslash never loses step with the real extent of an escape |
| Selector.GrammarAccepted | components/selectormatch/selector.go:123-158 | everything the grammar writes is accepted, with its matchers in order |
| Selector.AcceptedInGrammar | components/selectormatch/selector.go:123-158 | everything accepted is written by the grammar, which yields the same matchers |
| Selector.AcceptsExactlyTheGrammar | components/selectormatch/selector.go:123-294 | the parser returns a matcher list exactly when the grammar writes the input with that meaning: spaces, one trailing comma, at least one clause, whole input |
| Selector.DottedExtendsPlain | components/selectormatch/selector.go:112-123 | ParseDotted gives the same result on everything Parse accepts |
| Selector.ListStopsAtToken | components/selectormatch/selector.go:123-158 | after the matcher list no space is left to skip |
| SelectorScanner.Scanner.Consume | components/selectormatch/selector.go:167-182 | takes the character exactly when it is next |
| SelectorScanner.Scanner.SkipSpaces | components/selectormatch/selector.go:184-193 | stands where the skipped text begins |
| SelectorScanner.Scanner.ParseLabelName | components/selectormatch/selector.go:225-241 | the longest name, or the error when there is none |
| SelectorScanner.Scanner.ParseOp | components/selectormatch/selector.go:244-261 | the two-character operators win over `=` |
| SelectorScanner.Scanner.ScanLiteral | components/selectormatch/selector.go:265-294 | finds the closing quote the reading function finds, without indexing outside the input even when an escape ends it |
| SelectorScanner.Scanner.ScanToken | components/selectormatch/selector.go:265-294 | returns the literal with its quotes, or the two errors |
| SelectorScanner.Scanner.ParseQuotedValue | components/selectormatch/selector.go:265-294 | the value of the literal, or the three errors |
| SelectorScanner.Scanner.ParseMatcher | components/selectormatch/selector.go:196-221 | one clause with its spaces, operator and compiled regular expression, or the first error |
| SelectorScanner.ParseClauses | components/selectormatch/selector.go:123-158 | the loop over clauses reads the list that the recursive definition reads |
| SelectorScanner.ParseSelector | components/selectormatch/selector.go:123-158 | the running parser terminates, stays inside the input and returns what the grammar-proved function returns |
| PromNaming.NormalizedNames | internal/promnaming/labels.go:43-62 | normalising is idempotent, leaves only word characters and underscores, and makes ASCII names valid in selectors |
| PromNaming.NormalizedByFirst | internal/promnaming/labels.go:43-62 | what a name becomes, by its first characters: kept, prefixed with key_, or underscored |
| PromNaming.BucketLabelNames | internal/promnaming/labels.go:43-62 | le and quantile are their own normal forms |
| PromNaming.OverlayLookup | internal/promnaming/labels.go:68-95 | datapoint attributes override resource attributes, name by name |
| PromNaming.OverlaidBy | internal/promnaming/labels.go:68-85 | a label has the value of the last attribute with its normalised name |
| PromNaming.SuppliedOrMade | internal/promnaming/labels.go:68-95 | a label that an attribute supplies reads as that attribute, the datapoint's before the resource's |
| PromNaming.JobInstanceExact | internal/promnaming/labels.go:117-158 | what job and instance are when no attribute supplies them, and when they are absent |
| PromNaming.AttrTextExact | internal/promnaming/labels.go:160-166 | the value of the first attribute with exactly this key, or the empty text |
| PromNaming.BuildSeriesLabels | internal/promnaming/labels.go:68-128 | the loops build the label view: resource, datapoint, job and instance if missing, extras |
| PromNaming.ResourceLabelMap | internal/promnaming/labels.go:104-128 | the loop builds the resource part of the view |
| PromNaming.SplitViewIsSeriesView | internal/promnaming/labels.go:97-112 | looking up datapoint attributes first and the resource map second equals the full view for every name that is no extra label |
| PromNaming.ExtraOnlyAdds | internal/promnaming/labels.go:68-95 | extra labels change no other name |
| Fingerprint.ListingUnique | components/metricstracker/collector_timeseries.go:180-196 | a set of names has one sorted listing |
| Fingerprint.BeforeIff | components/metricstracker/collector_timeseries.go:180-196 | the order of names: the first difference decides, then the length |
| Fingerprint.SortedKeys | components/metricstracker/collector_timeseries.go:150-196 | sorting the keys gives that listing |
| Fingerprint.ExtractSortedLabelPairs | components/metricstracker/collector_timeseries.go:180-196 | the pairs in that order |
| Fingerprint.PrintEntry | components/metricstracker/collector_timeseries.go:121-141 | printing an entry's pairs gives the block text |
| Fingerprint.BuildFingerprint | components/metricstracker/collector_timeseries.go:150-177 | printing from the map gives the same text as printing from the sorted pairs |
| Fingerprint.BlockParsesBack | components/metricstracker/collector_timeseries.go:121-177 | the printed label block is a selector: parsing it returns the pairs as equality matchers, in order |
| Fingerprint.BlockSelectsAgreement | components/metricstracker/collector_timeseries.go:150-177 | that selector matches a label set exactly when it agrees on those labels |
| Fingerprint.PairsTextInjective | components/metricstracker/collector_timeseries.go:150-177 | different pair lists print differently |
| Fingerprint.FingerprintInjective | components/metricstracker/collector_timeseries.go:150-177 | equal fingerprints mean equal metric name and equal label map |
| Telemetry.PointSeriesOfPoint | components/metricstracker/processor.go:212-314 | every series of a datapoint bears a family name of its metric, and its labels differ from the plain view only by le or quantile |
| Telemetry.PointSeriesExact | components/metricstracker/processor.go:212-295 | which series a datapoint has, position by position and with all labels: buckets by bound and infinity, quantiles, sum, count |
| Telemetry.SumSeriesIff | components/metricstracker/processor.go:256-258 | a histogram has a sum series exactly when its datapoint has a sum |
| Telemetry.BatchSeriesByDatum | components/metricstracker/processor.go:94-175 | the series of a batch are those of its datapoints, one datapoint after the other |
| Picks.PickedUnique | components/demandfilter/selectors.go:170-198 | pruning by a rule has one result: the list picked at all positions the rule keeps, in order |
| DemandFilter.SplitSelector | components/demandfilter/selectors.go:101-134 | the matchers sorted into name and label matchers, le and quantile dropped |
| DemandFilter.CompileSelectors | components/demandfilter/selectors.go:101-134 | the compiled set of the selectors that parse |
| DemandFilter.SplitMatchersExact | components/demandfilter/selectors.go:101-134 | each matcher lands on exactly one side, unless it is on le or quantile |
| DemandFilter.IndexRefinesScan | components/demandfilter/selectors.go:85-134 | the exact-name index finds for a name exactly the selectors a scan of all of them would find |
| DemandFilter.CandidatesFor | components/demandfilter/selectors.go:85-96 | exactly the candidates of the family names |
| DemandFilter.SplitMeansPlain | components/demandfilter/selectors.go:59-66 | name part and label part together mean the selector without le and quantile, on the full label view |
| DemandFilter.CandidatesMeanWanted | components/demandfilter/selectors.go:204-250 | some candidate accepts a datapoint exactly when some selector wants it under some family name |
| DemandFilter.UnconstrainedMeansByName | components/demandfilter/selectors.go:211-222 | the fast path is taken exactly when a selector accepts the metric by name alone |
| DemandFilter.MatchPoint | components/demandfilter/selectors.go:224-250 | the closure over the scratch map decides that |
| DemandFilter.FilterMetric | components/demandfilter/selectors.go:204-275 | what is left of a metric, fast path, empty metric and every type included |
| DemandFilter.FilterBySelectors | components/demandfilter/selectors.go:170-198 | the nested in-place pruning leaves exactly the batch of wanted datapoints |
| DemandFilter.KeepMetricExact | components/demandfilter/selectors.go:204-275 | a metric stays exactly when a datapoint is wanted, or it has none and is wanted by name; and then with its name, type and exactly the wanted datapoints, in order |
| DemandFilter.KeepBatchExact | components/demandfilter/selectors.go:170-198 | at each level of the tree exactly what has something left stays, in order and in place |
| DemandFilter.DatapointsKeptExactly | components/demandfilter/selectors.go:170-275 | the datapoints of the filtered batch are exactly the wanted ones of the batch, under their own resource and metric, in order and as often as they came |
| DemandFilter.ParseableExact | components/demandfilter/selectors.go:101-134 | a demand is what parses of its selectors, in order |
| DemandFilter.PointsKeptAreWanted | components/demandfilter/selectors.go:204-275 | a datapoint is kept exactly when it is wanted |
| DemandFilter.KeepBatchTwice | components/demandfilter/selectors.go:170-275 | filtering twice equals filtering once |
| DemandFilter.NothingEmptyLeft | components/demandfilter/selectors.go:170-198 | no scope and no resource is left empty |
| DemandFilter.DemandedSeriesWanted | components/demandfilter/selectors.go:204-275 | a datapoint with any exported series that a selector matches plainly is kept |
| DemandFilter.FilterPreservesSelection | components/demandfilter/selectors.go:170-275 | plain evaluation of the selectors selects the same series, in order, from the filtered batch as from the whole one |
| DemandFilter.SingleSeriesExact | components/demandfilter/selectors.go:204-275 | for one-series metrics and selectors without le or quantile, kept means matched, both ways |
| DemandProcessor.DemandedIsFamilyOverlap | components/demandfilter/processor.go:235-268 | name mode keeps a metric exactly when a demanded name is one of its family |
| DemandProcessor.ExactSelectorsParse | components/demandfilter/selectors.go:139-152 | the exact-name selectors of a name list all parse, to one name matcher each |
| DemandProcessor.ModesAgreeOnMetric | components/demandfilter/processor.go:235-268 | both modes keep the same typed metrics, with all their datapoints |
| DemandProcessor.ModesAgree | components/demandfilter/processor.go:121-227 | both modes leave the same batch, if every metric is typed |
| DemandProcessor.ModesOnBareMetric | components/demandfilter/processor.go:235-268 | on a metric without datapoints they agree too, unless it has no type: then only selector mode can keep it |
| DemandProcessor.FilterByNames | components/demandfilter/processor.go:155-183 | the nested in-place pruning of name mode |
| DemandProcessor.Processor.ParsedSelectors | components/demandfilter/selectors.go:139-152 | over any sequence of NUL-free lists the cache returns what a fresh compile would |
| DemandProcessor.Processor.ConsumeMetrics | components/demandfilter/processor.go:121-227 | what goes on to the next consumer in every mode, and when nothing does |
| Text.JoinAmbiguousIff | components/demandfilter/selectors.go:139-152 | a joined list has a twin with the same key exactly when it has two entries or an entry containing the separator |
| Text.FreeTwinIff | components/demandfilter/selectors.go:139-152 | it has a separator-free twin exactly when it is not separator-free itself |
| DemandProcessor.NulCollision | components/demandfilter/selectors.go:139-152 | lists with a NUL inside a value can share a key and compile differently |
| Tracker.Collector.AddTimeseries | components/metricstracker/collector_timeseries.go:64-86 | counts one more sample under the hash of the fingerprint |
| Tracker.Collector.TrackMetrics | components/metricstracker/processor.go:94-175 | every series of the batch is counted, in order |
| Tracker.Collector.ProcessPoint | components/metricstracker/processor.go:212-295 | the series of one datapoint, by type |
| Tracker.Collector.ProcessSeries | components/metricstracker/processor.go:297-314 | one series under its label view |
| Tracker.TallyExact | components/metricstracker/collector_timeseries.go:64-86 | barring hash collisions, the batch holds exactly the exported series, each with its own name, sorted labels and number of occurrences |
| Tracker.TallyKeys | components/metricstracker/collector_timeseries.go:64-86 | no key without a series that occurred |
| DemandMatcher.ExpandDemandNames | components/edgecontroller/demand_matcher.go:46-72 | the loop collects the expansion of every demanded name |
| DemandMatcher.StripLoop | components/edgecontroller/demand_matcher.go:46-72 | the suffix loop finds the one component suffix a name can have |
| DemandMatcher.StripIff | components/edgecontroller/demand_matcher.go:46-72 | a name splits exactly as a non-empty base and a component suffix that make it up |
| DemandMatcher.ExpandByStrip | components/edgecontroller/demand_matcher.go:46-72 | when a demanded name stores a name, by their bases and suffixes |
| DemandMatcher.BuildFamilyNameVariants | components/edgecontroller/demand_matcher.go:171-188 | the variants in order |
| DemandMatcher.VariantByStrip | components/edgecontroller/demand_matcher.go:171-188 | when a name is a variant, by their bases and suffixes |
| DemandMatcher.InverseExactly | components/edgecontroller/demand_matcher.go:168-188 | the two functions are inverse on a pair exactly when it is not mismatched |
| DemandMatcher.InverseFails | components/edgecontroller/demand_matcher.go:168-188 | names on which each direction fails |
| DemandMatcher.ParseNameSelectors | components/edgecontroller/demand_matcher.go:125-140 | the name-only view of each selector, in order; one that does not parse is kept and demands nothing |
| DemandMatcher.NameSelectorMatches | components/edgecontroller/demand_matcher.go:149-166 | whether the view accepts some variant of a name |
| DemandMatcher.NameViewsExact | components/edgecontroller/demand_matcher.go:125-166 | the views count a name exactly when a parseable selector counts it |
| DemandMatcher.SelectorDemandedNames | components/edgecontroller/demand_matcher.go:194-206 | from the raw selectors, exactly the known names that the parseable ones count |
| DemandMatcher.SelectorCountCovers | components/edgecontroller/demand_matcher.go:149-206 | every series of a datapoint that selector mode keeps is counted |
| DemandMatcher.SelectorCountCompleteIff | components/edgecontroller/demand_matcher.go:149-206 | that holds for all demands exactly for the accountable names |
| DemandMatcher.NameCountCovers | components/edgecontroller/demand_matcher.go:46-72 | every series of a metric that name mode keeps is counted |
| DemandMatcher.NameCountCompleteIff | components/edgecontroller/demand_matcher.go:46-72 | that holds for all name lists exactly for non-empty accountable names |
| DemandMatcher.CountsAgree | components/edgecontroller/demand_matcher.go:168-206 | a name list and its exact-name selectors count the same names, mismatched ones aside |
| SampleRing.AdvanceRefines | components/edgecontroller/known_timeseries_cache.go:220-243 | moving the ring forward, by any number of hours or none, keeps it a view of the full history |
| SampleRing.RecordRefines | components/edgecontroller/known_timeseries_cache.go:186-215 | an update charges its samples to the latest hour seen |
| SampleRing.RingSumIsWindow | components/edgecontroller/known_timeseries_cache.go:358-364 | the sum of the slots is the sum of all samples charged to the last eight hours |
| SampleRing.RingRefinesHistory | components/edgecontroller/known_timeseries_cache.go:186-243 | over any events at any times, also with the clock set back: head, latest hour, slots and sum are those of the history |
| SampleRing.InactiveMeansNoSample | components/edgecontroller/known_timeseries_cache.go:293-321 | the window sum is zero exactly when no sample lies in the window |
| KnownCache.KnownEntry.AdvanceRingBuffer | components/edgecontroller/known_timeseries_cache.go:220-243 | the in-place loop computes the ring function |
| KnownCache.KnownEntry.SumSamples | components/edgecontroller/known_timeseries_cache.go:358-364 | the sum of the array |
| KnownCache.Cache.IsTimeseriesKnown | components/edgecontroller/known_timeseries_cache.go:175-180 | true exactly for the keys in the cache |
| KnownCache.Cache.UpdateTimeseries | components/edgecontroller/known_timeseries_cache.go:186-215 | creates or updates one entry and leaves every other as it was |
| KnownCache.Cache.GetActiveTimeseriesBatch | components/edgecontroller/known_timeseries_cache.go:249-289 | reports each due entry it visited once, with its window total; stops only when full; changes nothing but the rings it advances |
| KnownCache.Cache.GetInactiveTimeseriesBatch | components/edgecontroller/known_timeseries_cache.go:293-321 | distinct keys with an empty window, and all of them unless the batch is full |
| KnownCache.Cache.DeleteBatch | components/edgecontroller/known_timeseries_cache.go:324-331 | removes exactly the keys |
| KnownCache.Cache.MarkSyncedBatch | components/edgecontroller/known_timeseries_cache.go:344-354 | sets the sync time of exactly the keys that are known |
| KnownRuns.VisitedIsRead | components/edgecontroller/known_timeseries_cache.go:249-321 | a batch read changes the cache as the read operation of a run does |
| KnownRuns.RunFollowsEvents | components/edgecontroller/known_timeseries_cache.go:186-354 | over any run a key is known exactly when it was received since its last deletion, with the ring those events build |
| KnownRuns.EntryFollowsRun | components/edgecontroller/known_timeseries_cache.go:186-354 | over any run an entry has the name it came in with and the times it was last received and last synced |
| KnownRuns.DueIff | components/edgecontroller/known_timeseries_cache.go:249-289 | a key is selected exactly when it was not synced since the threshold and its window is not empty |
| KnownRuns.TotalIsWindow | components/edgecontroller/known_timeseries_cache.go:249-289 | over any run the total reported is the sum of the samples charged to the window |
| KnownRuns.InactiveHasNoSample | components/edgecontroller/known_timeseries_cache.go:293-321 | a key reported inactive has no sample in its window |
| KnownRuns.ActiveThenInactiveDisjoint | components/edgecontroller/timeseries_processor.go:122-150 | a key found active is not found inactive in the same hour |
| KnownRuns.SyncTimeKept | components/edgecontroller/known_timeseries_cache.go:344-354 | no operation short of deletion takes back a sync time |
| KnownRuns.SyncedNotSoonDue | components/edgecontroller/timeseries_processor.go:122-208 | a key marked synced is not selected again within sixty seconds |
| DiscoveredCache.Cache.Add | components/edgecontroller/discovered_timeseries_cache.go:91-95 | the entry is stored, the rest unchanged |
| DiscoveredCache.Cache.GetBatch | components/edgecontroller/discovered_timeseries_cache.go:108-147 | distinct keys with their items, as many as there are up to the batch size |
| DiscoveredCache.Cache.PurgeBatch | components/edgecontroller/discovered_timeseries_cache.go:178-185 | removes exactly the keys |
| DiscoveredCache.BuildIndexCreate | components/edgecontroller/timeseries_processor.go:221-248 | one message entry per item whose hexadecimal fingerprint decodes |
| DiscoveredCache.FlattenPairsBack | components/edgecontroller/timeseries_processor.go:221-248 | flattening label pairs for the batch and pairing them up for the message is the identity |
| DiscoveredCache.MessageCarriesBatch | components/edgecontroller/timeseries_processor.go:221-248 | the message carries every selected key with its name and labels; none is skipped |
| DiscoveredCache.RunRound | components/edgecontroller/timeseries_processor.go:80-118 | an acknowledged round takes a batch, sends it and purges it: the message holds exactly the purged keys, each with its name and labels, and the rest is untouched |
| DiscoveredCache.RoundShrinks | components/edgecontroller/timeseries_processor.go:80-118 | an acknowledged round removes a full batch, or all that is left |
| DiscoveredCache.DrainsInCeilRounds | components/edgecontroller/timeseries_processor.go:50-118 | n keys are gone after exactly ceil(n/5000) acknowledged rounds, and not before |
| Correlation.StepKeepsInv | components/edgecontroller/extension.go:521-572 | every step of senders, receive loop, timeouts and server keeps the invariant |
| Correlation.RequestsAreSafe | components/edgecontroller/extension.go:521-572 | in every interleaving a sender returns only an Ack with its own id, delivering one never blocks, and pending holds exactly the registered, unresolved, unreturned ids |
| Correlation.AnswerReturns | components/edgecontroller/extension.go:529-572 | in every reachable state an Ack for a pending request gets through, and its sender returns that very Ack |
| Correlation.StrayAckIgnored | components/edgecontroller/extension.go:529-542 | an Ack with an id that is not pending changes no request |
| IndexSync.StepKeepsInv | components/edgecontroller/timeseries_processor.go:50-208 | every step of receivers, processors and wire keeps the invariant |
| IndexSync.NoSeriesForgotten | components/edgecontroller/extension.go:216-229 | in every interleaving each key ever put in a cache is still in discovered or was carried in an IndexCreate whose own id was answered |
| IndexSync.NoSeriesUnsent | components/edgecontroller/timeseries_processor.go:80-118 | with a server that answers only what it was sent, that message went out |
| IndexSync.KnownKeysIndexed | components/edgecontroller/timeseries_processor.go:122-173 | with one processor and any number of receivers, each lock taken on its own, in every run that completes no delete round while a receiver holds one of its keys (unless queued again): a known key is queued, or created more recently than deleted, or in the delete round being completed |
| IndexSync.LateUpdateLawfulIff | components/edgecontroller/extension.go:216-229 | completing a delete round while a receiver holds one of its keys, the receiver's update keeps that law exactly when the key is queued again |
| IndexSync.OneStepReceivesAreOrderly | components/edgecontroller/extension.go:216-229 | if each series is received in one step, every run is of that kind |
| SyncRuns.RoundCompletes | components/edgecontroller/timeseries_processor.go:122-208 | a round acknowledged throughout tells the backend to delete exactly the inactive keys and then to update exactly the active ones, sends neither message empty, and drops exactly the inactive keys |
| SyncRuns.LateUpdateStrandsKey | components/edgecontroller/extension.go:216-229 | without that condition the law fails: from every quiet state with a known key, a receiver that saw it known can bring it back after its acknowledged deletion, known but neither queued nor indexed |
| SyncRuns.SomeRunStrandsKey | components/edgecontroller/extension.go:216-229 | such a run exists from the start, with one processor and one receiver |
| IngestBackoff.Backoff.Allow | components/ingestbackoff/extension.go:100-116 | lets an attempt through or not as the valve says, and re-arms the hold when it is a probe |
| IngestBackoff.Backoff.Observe | components/ingestbackoff/extension.go:120-139 | a 403 arms the hold, anything else opens the valve |
| IngestBackoff.Backoff.RoundTrip | components/ingestbackoff/extension.go:146-175 | a suppressed push answers 403 and leaves the valve alone; a sent one is observed unless it was lost |
| IngestBackoff.PassesIff | components/ingestbackoff/extension.go:100-139 | in every run, whatever the clock does, an attempt passes exactly when the last response was no 403, or an interval has gone by since the last 403 and the last attempt let through after it |
| IngestBackoff.OpenLetsThrough | components/ingestbackoff/extension.go:104-106 | a valve that saw no 403, or anything else after it, holds nothing back |
| IngestBackoff.PausedIffLastForbidden | components/ingestbackoff/extension.go:120-139 | paused exactly when the last observed response was a 403 |
| IngestBackoff.ForbiddenArms | components/ingestbackoff/extension.go:120-139 | whatever came before it, a 403 arms the valve: the run goes on, and attempts pass, as from a valve armed then |
| IngestBackoff.ProbeRate | components/ingestbackoff/extension.go:100-139 | in any run, from a 403 at time a and while the pause is unbroken, at most (t-a)/R attempts pass by time t, pairwise R apart, however many are in flight |
| IngestBackoff.ProbeAfterForbidden | components/ingestbackoff/extension.go:100-139 | in any run none passes within R of a 403 observed in the same pause |
| IngestBackoff.HoldIsNear | components/ingestbackoff/extension.go:100-116 | in any run a suppressed attempt is never more than R before the end of the hold |
| TraceRouting.TraceRoutesFromProto | components/edgecontroller/extension.go:189-205 | keeps the entries that have both a selector and a filter id, in order |
| TraceRouting.CompleteRoutesExact | components/edgecontroller/extension.go:189-205 | the table is what is complete of the message, in order |
| TraceRouting.ParseRoutesExact | components/tracedemandfilter/processor.go:315-332 | the parsed table is what parses of the table, in order, each selector with its own rule's id |
| TraceRouting.ResourceLabelsExact | components/tracedemandfilter/resourceattrs.go:31-38 | a label is present exactly when its attribute is, with the attribute's text |
| TraceRouting.ConsumeRouted | components/tracedemandfilter/processor.go:245-291 | one stamped copy of each resource per route that matches it; nothing is sent when no span is left |
| TraceRouting.GroupByFilterId | components/tracerouter/exporter.go:96-120 | one group per id that occurs, holding its resources in order without the stamp |
| TraceRouting.UnstampedGroup | components/tracerouter/exporter.go:94-120 | resources without a stamp go to the tenant-wide group as they are |
| TraceRouting.RoutedGroupsExact | components/tracerouter/exporter.go:96-120 | end to end, group f holds the input resources in order, each once per matching route of f, unchanged but for the stamp |
| TraceRouting.RoutedSpansConserved | components/tracedemandfilter/processor.go:245-291 | the spans sent are the spans received times the routes that match them |
| TraceRouting.GroupingConserves | components/tracerouter/exporter.go:96-120 | the groups together hold as many spans as the batch |
| TraceRouting.NothingUnrouted | components/edgecontroller/extension.go:189-205 | with a table from the server no routed span falls into the tenant-wide group |
| TraceRouting.FilterTraces | components/tracedemandfilter/processor.go:177-193 | without a table, exactly the resources some selector matches |
| TraceRouting.KeptTracesExact | components/tracedemandfilter/processor.go:177-193 | exactly the resources some selector matches go on, unchanged, in order and as often as they came |
| TraceRouting.ParsedDottedExact | components/tracedemandfilter/processor.go:219-232 | the selectors that parse, in order |
| TraceRouting.RoutedIffKept | components/tracedemandfilter/processor.go:130-204 | a table ships a resource exactly when the plain selectors of its routes would keep it |
| TraceRouting.RoutedIsCopiesOfKept | components/tracedemandfilter/processor.go:130-291 | over a batch, a table makes its copies of exactly the resources its plain selectors would keep, at least one of each |
| TraceRouting.RouteTextAmbiguousIff | components/tracedemandfilter/processor.go:300-306 | a route's part of the cache key is ambiguous exactly when its filter id or its selector contains `=` |
| TraceRouting.PlainTwinIff | components/tracedemandfilter/processor.go:300-306 | it can be taken for a route whose id has no `=` exactly when its own id has one |
| TraceRouting.RouteKeyAmbiguousIff | components/tracedemandfilter/processor.go:300-306 | the key of a table is ambiguous exactly when it has two routes, or one with `=` in its id or selector |
| TraceRouting.RouteCollision | components/tracedemandfilter/processor.go:300-338 | two tables with one key, one with a route and one that parses to none |
| TraceRouting.RouteKeyInjective | components/tracedemandfilter/processor.go:300-306 | on tables free of NUL and of `=` in ids the cache key tells tables apart |
| TraceRouting.TraceFilter.ParsedSelectors | components/tracedemandfilter/processor.go:210-236 | over any sequence of NUL-free lists the cache returns what a fresh parse would, the first call included |
| TraceRouting.TraceFilter.ParsedRoutes | components/tracedemandfilter/processor.go:300-338 | over any sequence of plain tables the cache returns what a fresh parse would |
| TraceRouting.TraceFilter.ConsumeTraces | components/tracedemandfilter/processor.go:136-204 | what goes on to the exporter in each case, and when nothing does |
| ConfigSources.ParseConfigFlags | components/edgecontroller/config_manager.go:199-224 | the indexed loop collects the flag values in order, both forms |
| ConfigSources.FlagForms | components/edgecontroller/config_manager.go:196-224 | one dash or two, value after = or in the next argument, nothing for a flag at the end |
| ConfigSources.OtherArgument | components/edgecontroller/config_manager.go:205-208 | any other argument is passed over |
| ConfigSources.UriPathIff | components/edgecontroller/config_manager.go:226-241 | which URIs stand for which file |
| ConfigSources.ValidateArgs | components/edgecontroller/config_manager.go:466-476 | the dry run's arguments, the candidate substituted for its target |
| ConfigSources.SourceArgsParse | components/edgecontroller/config_manager.go:196-224 | reading those arguments back gives the source list, whatever the URIs look like |
| ConfigSources.DryRunSeesCommit | components/edgecontroller/config_manager.go:457-476 | the dry run resolves exactly the sources of the disk in which the candidate has replaced its target |
| ConfigManager.PrimaryIsKnown | components/edgecontroller/config_manager.go:161-181 | without an override the primary file is a source, and is missing only when no source is a file |
| ConfigManager.PrimaryIsFirst | components/edgecontroller/config_manager.go:165-176 | the override or, without one, the file of the first source that is a file |
| ConfigManager.Manager.Stage | components/edgecontroller/config_manager.go:416-455 | the candidate stands under a fresh temporary name, or nothing but temporary files has changed |
| ConfigManager.Manager.Validate | components/edgecontroller/config_manager.go:461-501 | passes only if the collector accepts the sources with the candidate in place; a dry run that neither fails to start nor is cut short decides exactly that; unavailable without an executable |
| ConfigManager.Manager.Commit | components/edgecontroller/config_manager.go:518-537 | at every moment either only the backup differs or the candidate is at its target; without a fault the backup holds what the target held |
| ConfigManager.CommittedExact | components/edgecontroller/config_manager.go:518-537 | a commit without a fault: candidate at the target, what the target held in the backup, no other file changed |
| ConfigManager.Manager.Apply | components/edgecontroller/config_manager.go:332-400 | each guard with its refusal, in order, and the disk untouched; which file is written; at every moment the sources are as before or as before with a validated candidate; refused means sources unchanged, applied means validated and in place; any refusal but a failed rename changes staged files only, and that one at most the backup; when nothing fails the whole disk is determined, backup included |
| ConfigManager.RefusalCanChangeIff | components/edgecontroller/config_manager.go:329-331 | a refused write can change a file exactly when the target exists and is not empty, or is empty with a backup missing or not empty |
| ConfigManager.RefusalLosesBackup | components/edgecontroller/config_manager.go:518-529 | a disk on which a refused write loses the last backup |
| ConfigManager.RunStaysUnclashing | components/edgecontroller/config_manager.go:332-400 | sources that do not clash at the start never do |
| ConfigManager.RunStaysValid | components/edgecontroller/config_manager.go:332-400 | over any sequence of calls, with failures and stops anywhere, a configuration that began valid stays valid |
| ConfigManager.RunHoldsValidated | components/edgecontroller/config_manager.go:332-400 | every config file holds what it started with or a candidate that was validated |
| ConfigManager.CommitKeepsValid | components/edgecontroller/config_manager.go:518-537 | if the target's backup is no source, a validated candidate leaves a valid configuration |
| ConfigManager.BackupClashBreaks | components/edgecontroller/config_manager.go:518-537 | if it is one, a validated candidate can leave an invalid configuration |

## Left out

- gRPC dialing, reconnecting, the ping loop, HTTP pushes, logging, self-metrics and factories: plumbing without a law of its own.
- YAML diagnostics, Snapshot and the reload after a config write: reporting, and a process exit.
- The query tunnel and `resolveprovider`: thin wrappers around remote calls.
- `logdemandfilter`: the trace filter's keep-or-drop path over again.
- diagnoseDemand and diagnoseDemandSelectors: split a list by the counts that are modelled.
- The translation of metric names (`internal/promnaming/promnaming.go`) is not part of this model; a metric carries its translated base name.
- Regular expressions, the 128-bit hash and attribute rendering are parameters: nothing is proved about RE2, xxh3 or AsString.
- Text is a sequence of Unicode characters: invalid UTF-8, and escapes that denote raw bytes from 0x80 up, are not represented (such a literal is refused).
- Error messages keep their kind but not their positions or wording.
- OTLP batches are values inside one object: the aliasing of inner slices during pruning is not represented.
- Sample counts and times are unbounded integers: 64-bit overflow is not represented.
- RequestsAreSafe: for fewer than 2^64 ids, since the counter wraps there.
- Correlation and IndexSync: a cancelled context ends a call as a timeout does.
- KnownKeysIndexed: for runs that complete no delete round while a receiver holds one of its keys; it fails without (LateUpdateLawfulIff, SomeRunStrandsKey). NoSeriesForgotten has no such condition.
- IndexSync: which keys a processor selects is left open (any known keys may be found active or inactive), so its laws hold for every choice the caches make.
- FilterMetric: assumes that a metric without a type has no datapoints, as OTLP cannot express one.
- ProbeRate: for a clock that does not step backwards.
- BackupClashBreaks: shows one possible disk and verdict per clashing source, not that every commit breaks.
- Apply: the promise about sources asks that no source is another's backup and no missing source ends in `.tmp`; two spellings of one path, symbolic links, permissions, writers outside the agent and a rename lost to a power failure are not represented.
- RoundTrip: the request and the body of the answer are not represented, only status and order of events.
