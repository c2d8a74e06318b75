# Point-in-time evidence bookkeeping, verified

A Dafny model of the logic that decides what a past reader of the system may see,
which evidence a run leaves behind, and when work may be done again:

- the identity of unlabelled SEC observations across snapshots (`LineageReconciliation`,
  with which observations may be paired in `LineageMatching` and what it keeps in
  `LineageIdentity` and `LineageOrder`), and the immutable ledger of their corrections
  (`CorrectionLedger`);
- content-addressed payloads and the record of when they were observed
  (`ObservationEvents`);
- currency conversion from dated, revisable quotes (`FxConversion`, and the evidence each
  conversion rests on in `FxEvidence`);
- which vintage of a fact is current, discrete quarters, and trailing twelve months
  (`VintageSelection`, `QuarterSeries`, `QuarterCandidates`, `AnchoredTtm`,
  `AnchoredEvidence`, `AnchoredYear`);
- the target-job protocol and the frozen gate of the daily market job
  (`TargetJobs`, `JobProtocol`);
- the bounded liquidity plan against its verifier (`LiquidityEvidence`,
  `LiquidityOutcome`), and the SEC ingestion's asset references against theirs
  (`SecIngestion`, `SecClosure`, `SecStage`);
- the stored credit allowance (`CreditBudget`) and the merge of filing records
  (`FilingMerge`, `FilingSource`).

`Wrappers`, `Sorting`, `IntegerSets` and `Grouping` hold small shared notions: option
and result types, Python's stable sort, sorted integer sets, and dictionaries of lists.

Code that loops and updates state is modelled by methods, in classes where the original
keeps the state in an object or a table; each is proved against a specification, and the
properties are lemmas about that specification. Pure code is modelled by functions.
Instants are integers (exact reals in `CreditBudget`), dates are day numbers, decimal
amounts and rates are exact reals, and hashes are opaque values compared for equality.

Beside its specification each main operation has a law in the stored fields alone: clocks
and dates in literal units, component keys, rows and references, without the definitions
that the specification and the operation share. Names ending in `ByFields` or `ByClocks`,
and the modules `LineageMatching`, `FxEvidence`, `AnchoredEvidence`, `LiquidityOutcome` and
`SecStage`, hold these laws.

Where the code does less than its own text or a caller would expect, that is recorded as a
result, with an input and the exact condition:

- Repeated signatures in one snapshot group can be given one lineage, because the set of
  used lineages grows only after a group is named (`RepeatsCanCollide`); over any sequence
  of snapshots `VintagesAreDistinctExactly` says exactly when that happens.
- The comment in the filing merge says the result is independent of input order. Every
  field but the source asset is (`FoldIgnoresOrder`), and the source asset is for two
  records (`TwoRecordsShareSource`), but not for three (`ThreeRecordsCanDiffer`). It is
  for any number of records exactly when one record is not overtaken by any merge of three
  of them (`SourceIgnoresOrderExactly`).
- Hiding rows that are not yet available before resolving a chain never drops a row
  (`VisibilityFilterDropsNothing`) but can admit a legacy row that the whole chain leaves
  unproven (`VisibilityFilterCanAdmitMore`): exactly when the cutoff hides a proven earlier
  revision of that row (`VisibilityFilterAdmitsMoreExactly`). With availability that never
  falls along a chain it cannot (`VisibilityFilterIsHarmless`), and ingestion keeps it that
  way (`IngestedAvailabilityIsMonotone`).
- A correction of a head that is not on top of its chain is persisted, and can withhold a
  legacy row above it from earlier cutoffs when the whole ledger is resolved
  (`CorrectionBelowTheTopWithholds`), exactly when it lands below an admitted legacy row;
  what the reader uses never changes (`CorrectionsReachOnlyForward`).
- The selected vintage can depend on the input order (`InvertedRevisionsCycle`): it does not
  exactly when every key has a fact newer than each of its rivals
  (`SelectionIgnoresOrderExactly`), which the ledger's own condition ensures.
- With a pair quoted both ways converting back need not undo converting (`RoundTripCanFail`);
  it does exactly when the path's quotes balance (`RoundTripsExactly`).
- A passed credit preflight does not look at the limit per minute, the next slot or a usage
  date ahead of the clock, so the next consume can still be refused (`PreflightCanMislead`);
  `PreflightGuaranteesExactly` gives the records on which the promise holds.
- The daily credit limit holds for every stored record exactly when no UTC day comes back
  after another one (`DayCapHoldsExactly`, `BackwardClockOverspends`).

## Model

| member | source | states |
|---|---|---|
| CorrectionLedger.ResolveAvailability | src/stanstock/data/sec_fundamentals.py:109-216 | every row gets the instant its whole chain proves it from, the basis and the assessed bound, stated over the ledger and again by the row's own clocks: an original or bound row at its availability, a legacy correction at the later of its availability and its asset's retrieval, or at none |
| CorrectionLedger.ProvenFromClocks | src/stanstock/data/sec_fundamentals.py:158-216 | on any ledger a legacy correction is proven iff no earlier revision carries its content and none is proven after both its clocks, and then at one of the two and not before either |
| CorrectionLedger.ReasonFromClocks | src/stanstock/data/sec_fundamentals.py:158-216 | the basis given follows the row and its chain, and only a row proven too late behind it gives the latest such instant, which is after both its clocks |
| CorrectionLedger.AdmittedByClocks | src/stanstock/data/sec_fundamentals.py:180-255 | point in time: nothing is admitted or used before its availability, no legacy correction before its bytes were retrieved, and one that nothing in its chain speaks against is admitted from the later of the two on |
| CorrectionLedger.PartitionUnprovenCorrections | src/stanstock/data/sec_fundamentals.py:229-255 | admits exactly the rows proven by the cutoff and defers exactly the others with their resolutions, both in input order |
| CorrectionLedger.VisibilityFilterDropsNothing | src/stanstock/data/sec_fundamentals.py:141-255 | on any ledger, a row that resolving the whole ledger admits is used by the reader that filters by recorded availability first, with the same proven instant |
| CorrectionLedger.VisibilityFilterAdmitsMoreExactly | src/stanstock/data/sec_fundamentals.py:141-255 | on any ledger, a row the reader uses is not admitted by the whole ledger iff it is a legacy correction and the cutoff hides a proven earlier revision |
| CorrectionLedger.VisibilityFilterIsHarmless | src/stanstock/data/sec_fundamentals.py:141-255 | at a cutoff the reader uses exactly the rows the whole ledger admits iff it hides nothing proven behind a legacy row it uses; always, when availability never falls along a chain |
| CorrectionLedger.VisibilityFilterCanAdmitMore | src/stanstock/data/sec_fundamentals.py:158-216 | three named legacy rows of one chain with different content, and a cutoff at which the reader uses the third, which the whole chain leaves unproven |
| CorrectionLedger.FactTable.NeedsObservationRebinding | src/stanstock/data/sec_ingestion.py:3186-3220 | true exactly for a head whose chain does not prove it by a bound observation |
| CorrectionLedger.FactTable.PersistFactDerivation | src/stanstock/data/sec_ingestion.py:3073-3183 | the new table and the outcome (reused, appended with the next revision, or a constraint refusal) are the specified ones, and the table constraints stay |
| CorrectionLedger.PersistByFields | src/stanstock/data/sec_ingestion.py:3073-3220 | field by field: a collision iff the identity is stored without a head, reuse iff the head carries the same concept, identity, value, acceptance and labels under the same signature and its chain does not speak against it, a revision collision iff the next number is taken, and else a row with that number, available at the later of acceptance and retrieval |
| CorrectionLedger.NoBackdating | src/stanstock/data/sec_ingestion.py:3095-3135 | on any ledger, a bound correction that became available after a cutoff changes nothing the reader at that cutoff uses; and resolving the whole ledger admits the same rows as before iff it admitted no legacy row above the correction in its chain, so always when it is appended on top |
| CorrectionLedger.BoundCorrectionWithholds | src/stanstock/data/sec_fundamentals.py:141-226 | row by row: after such a correction a row is admitted iff it was and is not a legacy row above the correction |
| CorrectionLedger.CorrectionsReachOnlyForward | src/stanstock/data/sec_ingestion.py:3073-3183 | whatever the ledger held and wherever in its chain the row lands, persisting content observed at t changes nothing a reader before t uses, and changes the whole ledger's admissions iff it lands below an admitted legacy row |
| CorrectionLedger.CorrectionBelowTheTopWithholds | src/stanstock/data/sec_ingestion.py:3117-3135 | a head below the top of its chain: the correction of it is persisted, and withholds a legacy third revision from an earlier cutoff that admitted it |
| CorrectionLedger.UnchangedAppendsOnlyToRebind | src/stanstock/data/sec_ingestion.py:3186-3220 | unchanged content reuses the head iff it needs no rebinding; otherwise it appends a row, admitted from the retrieval on, or is refused iff that revision is taken |
| CorrectionLedger.RebindingHappensOnce | src/stanstock/data/sec_ingestion.py:3186-3220 | the next unchanged retrieval reuses what the first one left: at most one row, never again |
| CorrectionLedger.LedgerRefinesObservationLog | src/stanstock/data/sec_ingestion.py:2180-2226 | one slot observed over time leaves 1 + (signature changes) contiguous revisions, and at every cutoff from acceptance on the highest admitted one carries the content last observed by then, reversions included |
| CorrectionLedger.IngestedAvailabilityIsMonotone | src/stanstock/data/sec_ingestion.py:3095-3135 | an ingested slot's availability never falls as revisions rise |
| LineageIdentity.Inspect | src/stanstock/data/sec_ingestion.py:2564-2602 | one snapshot's raw observations are numbered by how often their group already carried the same content, with the dictionary of counts, and the kept ones returned in order |
| LineageIdentity.InspectedIsLabelled | src/stanstock/data/sec_ingestion.py:2564-2602 | whatever the raw observations are, no two kept ones get one provisional name, and a name carries its observation's signature |
| LineageIdentity.OnceIsWellNamed | src/stanstock/data/sec_ingestion.py:2564-2602 | content that never repeats in a group is always the first occurrence of its name |
| LineageReconciliation.NoSecondRound | src/stanstock/data/sec_ingestion.py:2691-2725 | removing every isolated edge of the stable-component graph leaves no isolated edge |
| LineageReconciliation.MutuallyUnique | src/stanstock/data/sec_ingestion.py:2691-2725 | the loop pairs exactly the isolated edges and leaves exactly the rest |
| LineageReconciliation.Owners | src/stanstock/data/sec_ingestion.py:2670-2736 | ambiguous iff both remainders are non-empty and not both singletons; otherwise each continued observation has its one predecessor |
| LineageReconciliation.ReconcileGroup | src/stanstock/data/sec_ingestion.py:2665-2768 | a group fails exactly when it is ambiguous or an observation has no signature; otherwise each observation continues its predecessor or gets a fresh name |
| LineageReconciliation.NamesAreDetermined | src/stanstock/data/sec_ingestion.py:2738-2752 | a group's names depend on its own last lineages and used names only, whatever other groups have used |
| LineageReconciliation.ReconcileSnapshot | src/stanstock/data/sec_ingestion.py:2653-2770 | one snapshot, repeated signatures or not: refused iff one of its groups is, and otherwise every observation gets the lineage its group's history determines |
| LineageReconciliation.Reconcile | src/stanstock/data/sec_ingestion.py:2635-2771 | any sequence of snapshots is refused exactly when some group of some snapshot is; otherwise every vintage carries the lineages that the snapshots before it determine, and no later one changes them |
| LineageMatching.MutualMatchExactly | src/stanstock/data/sec_ingestion.py:2691-2725 | what exact matching leaves is paired iff the two have a component key in common and neither has one in common with another observation left over |
| LineageMatching.CommonKeyKeepsLineage | src/stanstock/data/sec_ingestion.py:2691-2782 | an observation whose signature changed keeps its lineage when an unchanged component singles it out |
| LineageMatching.KeptLineageHasReason | src/stanstock/data/sec_ingestion.py:2664-2736 | whoever carries an old lineage has its signature, a key in common with it, or was the only one left when everything else was matched |
| LineageMatching.NoSignatureLeftOnBothSides | src/stanstock/data/sec_ingestion.py:2670-2690 | exact matching leaves no signature on both sides, repeats included |
| LineageMatching.ReconcileRestated | src/stanstock/data/sec_ingestion.py:2665-2768 | however many observations of a group are restated at once, each with an unchanged component of its own, the group is accepted and all lineages are kept |
| LineageMatching.ReconcileTwoRestatements | src/stanstock/data/sec_ingestion.py:2665-2782 | two values restated in one snapshot, with only the hashes without the value unchanged: accepted, both lineages kept |
| LineageMatching.NothingInCommon | src/stanstock/data/sec_ingestion.py:2727-2736 | with neither signatures nor keys in common a group is ambiguous iff both sides are there and one has more than one observation, and a lone pair continues |
| LineageMatching.RestatementKeepsLineages | src/stanstock/data/sec_ingestion.py:2635-2771 | after any accepted history, a group restated observation by observation is accepted and keeps all its lineages |
| LineageIdentity.NamesAreDistinctExactly | src/stanstock/data/sec_ingestion.py:2664-2768 | within one group of one snapshot lineages are pairwise distinct iff no two observations that continue none clash: of one signature, both provisional names taken, or one taken and its next free number the other's |
| LineageIdentity.VintagesAreDistinctExactly | src/stanstock/data/sec_ingestion.py:2635-2771 | over any accepted sequence, repeats included: every vintage's lineages are pairwise distinct over all groups iff no snapshot holds two clashing observations |
| LineageIdentity.OnceEachIsDistinct | src/stanstock/data/sec_ingestion.py:2635-2771 | so they always are when each signature occurs once a group |
| LineageIdentity.RepeatsCanCollide | src/stanstock/data/sec_ingestion.py:2738-2760 | three inspected snapshots of one group (a; b; b, a, a) that are accepted and whose last vintage names two observations alike |
| LineageIdentity.DroppedLineageNeverReturns | src/stanstock/data/sec_ingestion.py:2719-2770 | a lineage missing from a later vintage of its group is never handed out again, repeats included |
| LineageIdentity.RetiredForever | src/stanstock/data/sec_ingestion.py:2719-2770 | a lineage that is used and no longer live stays so and is never named, through any snapshots |
| LineageOrder.OrderIsIrrelevant | src/stanstock/data/sec_ingestion.py:2635-2771 | repeats included: sequences whose snapshots hold the same labelled observations in any positions are accepted alike and resolve each of them to one lineage |
| LineageOrder.RawOrderIsIrrelevant | src/stanstock/data/sec_ingestion.py:2564-2771 | for the raw observations of every snapshot in any order: the sequences are accepted alike, and the k-th repeat of a content in a group gets the same lineage |
| LineageOrder.ContinuesCorresponds | src/stanstock/data/sec_ingestion.py:2680-2733 | shuffling a group's last and current observations maps predecessors onto predecessors, in all three matching phases |
| LineageOrder.UnchangedSnapshotRepeats | src/stanstock/data/sec_ingestion.py:2670-2771 | the same observations again, repeats included, are accepted, use no new name, and the repeats of each signature keep their lineages as a multiset |
| LineageOrder.RepeatedSnapshotRepeatsLineages | src/stanstock/data/sec_ingestion.py:2635-2771 | the same over whole snapshot sequences and all groups |
| LineageOrder.OnceKeepsLineage | src/stanstock/data/sec_ingestion.py:2635-2771 | so an observation whose signature occurs once in its group keeps its lineage |
| ObservationEvents.Observations.Persist | src/stanstock/data/sec_ingestion.py:1284-1528 | one retrieval leaves the specified tables, and is refused iff other bytes own its instant |
| ObservationEvents.Observations.LatestObserved | src/stanstock/data/sec_ingestion.py:844-893 | returns the newest event's content and instant; without events those of the newest asset, and nothing without either |
| ObservationEvents.OneContentPerInstant | src/stanstock/data/models.py:248-279 | after any retrievals one instant of a stream names one content, and each event certifies bytes its asset holds |
| ObservationEvents.InstantNamesFirst | src/stanstock/data/sec_ingestion.py:1475-1528 | the content recorded at an instant is the first one retrieved there |
| ObservationEvents.RefusedExactly | src/stanstock/data/sec_ingestion.py:1516-1528 | refusal iff an earlier retrieval of the stream at that very instant carried other bytes |
| ObservationEvents.RecoveryIsNewestRetrieval | src/stanstock/data/sec_ingestion.py:844-893 | recovery names the latest retrieval's instant and content, whichever asset holds it |
| ObservationEvents.RecoveryIgnoresOrder | src/stanstock/data/sec_ingestion.py:844-893 | for consistent retrievals the recovered content and instant do not depend on recording order or repeats |
| ObservationEvents.NewestAssetIsStaleAfterReversion | src/stanstock/data/sec_ingestion.py:847-859 | after a reversion the newest asset is the superseded one while recovery returns the content seen last |
| FxConversion.FxConverter.Vintage | src/stanstock/data/fx.py:262-287 | the newest knowable vintage the date's cutoff and grade admit, or none |
| FxConversion.FxConverter.Candidates | src/stanstock/data/fx.py:307-354 | exactly the direct, inverse and single-pivot paths the visible quotes allow |
| FxConversion.FxConverter.Derive | src/stanstock/data/fx.py:356-375 | the best-ranked path, or a disagreement with a same-rank path |
| FxConversion.FxConverter.Convert | src/stanstock/data/fx.py:379-454 | bisect, reverse scan and early break equal the declarative conversion over the visible quotes |
| FxEvidence.ConversionIsAsKnown | src/stanstock/data/fx.py:174-454 | every outcome said of the stored rates: a conversion is on the newest date reached within the carry, at the value, the reciprocal or the product of the last available rates that were published by the end of the valued date and, for observed evidence, available and held by then too; stale, missing and ambiguous outcomes likewise |
| FxEvidence.OneOutcome | src/stanstock/data/fx.py:379-454 | the stored rates allow exactly one outcome, so the previous law decides it |
| FxEvidence.Answer | src/stanstock/data/fx.py:379-454 | a converter's answer obeys that law, whatever it loaded before |
| FxEvidence.KnownQuoteConverts | src/stanstock/data/fx.py:262-289 | a known quote inside the carry window converts directly unless a later date is reached, at its own value when it became available last; for research evidence publication alone makes it known |
| FxConversion.BestIsDerived | src/stanstock/data/fx.py:356-375 | ranking a candidate list gives the path the declarative rule names |
| FxConversion.StaleAndMissingExactly | src/stanstock/data/fx.py:400-454 | stale iff paths exist but only beyond the carry window, missing iff none exists |
| FxConversion.TighterCarryKeepsOutcome | src/stanstock/data/fx.py:400-454 | tightening the carry changes nothing but a refusal as stale |
| FxConversion.LaterEvidenceIsIrrelevant | src/stanstock/data/fx.py:221-454 | stores that agree on what a valued date may see give it the same outcome |
| FxConversion.ObservationEndIsIrrelevant | src/stanstock/data/fx.py:207-225 | an observation end at or after the valued date changes nothing visible |
| FxConversion.ConversionsAreReciprocal | src/stanstock/data/fx.py:291-454 | with one orientation per pair and date both directions succeed alike with rates multiplying to 1, or fail alike |
| FxConversion.RoundTripsExactly | src/stanstock/data/fx.py:307-454 | for any quotes, both orientations included: the two directions are missing or stale together, and where both succeed they use one date and their rates multiply to the imbalance of the path (the product of a pair's opposite quotes, or of the two legs' through the least pivot), so converting back undoes converting iff that is 1 |
| FxConversion.AmbiguousBackExactly | src/stanstock/data/fx.py:356-376 | a cross conversion is ambiguous in the opposite direction iff the crosses of this one disagree once the imbalances of their legs are taken out |
| FxConversion.RoundTripCanFail | src/stanstock/data/fx.py:307-375 | a pair quoted at 2.0 one way and 0.4 the other: both directions convert and multiply to 0.8 |
| FxConversion.DifferenceOfReciprocals | src/stanstock/data/fx.py:524-528 | the relative difference is invariant under reciprocals |
| FxConversion.AgreementComposes | src/stanstock/data/fx.py:524-528 | two rates within t of a third are within 2t - t*t of each other |
| FxConversion.AcceptedCrossesAgree | src/stanstock/data/fx.py:356-375 | an accepted cross is within tolerance of every pivot, which bounds any two of them |
| VintageSelection.ComparatorIsRankExactly | src/stanstock/data/sec_fundamentals.py:677-704 | the comparator is the rank order iff availability never falls as revisions rise within a series |
| VintageSelection.SelectLatestFactVintages | src/stanstock/data/sec_fundamentals.py:538-566 | the pass over a dictionary and the final sort give the specified tuple |
| VintageSelection.VintagesByKey | src/stanstock/data/sec_fundamentals.py:538-572 | on any facts: one reviewed fact for every concept and period that has any, ordered by concept, end, start and availability |
| VintageSelection.VintagesAreMostCurrent | src/stanstock/data/sec_fundamentals.py:677-704 | when availability follows revision, no reviewed fact of the same concept and period is more current: by availability, then revision, then the place of its alias in the reviewed list, then accession |
| VintageSelection.ComparatorByFields | src/stanstock/data/sec_fundamentals.py:677-704 | revisions of one series compare by revision, any other two facts by those four fields |
| VintageSelection.SelectedIsLatest | src/stanstock/data/sec_fundamentals.py:543-555 | under that condition each (concept, period) holds a rank maximum of its in-scope facts |
| VintageSelection.SelectionIgnoresOrderExactly | src/stanstock/data/sec_fundamentals.py:543-555 | for any facts, every input order selects the same iff each selected key has a champion, a fact newer than every rival of its key |
| VintageSelection.MonotoneHasChampions | src/stanstock/data/sec_fundamentals.py:677-704 | with availability never falling along a series and distinct ranks every key has its champion, the rank maximum |
| VintageSelection.VintagesIgnoreOrderExactly | src/stanstock/data/sec_fundamentals.py:556-566 | when dates name periods, the returned tuple is one for every input order iff each key has its champion |
| VintageSelection.InvertedRevisionsCycle | src/stanstock/data/sec_fundamentals.py:677-691 | three facts of one key with an inverted revision, each newer than another: none is champion, and two orders select different facts |
| QuarterSeries.Telescoping | src/stanstock/data/sec_fundamentals.py:778-844 | the reported quarter and its year-to-date differences are contiguous and add up to the last reported value, for sums and for day-weighted averages |
| QuarterSeries.TtmOfYearToDateIsReported | src/stanstock/data/sec_fundamentals.py:1334-1359 | over four of them the trailing value is the full-period reported value, exactly |
| QuarterSeries.WeightedAverageIsBetween | src/stanstock/data/sec_fundamentals.py:1339-1342 | a day-weighted trailing value lies between its smallest and largest quarter |
| QuarterSeries.DaysAddUp | src/stanstock/data/sec_fundamentals.py:839-844 | contiguous quarters' day counts add up to the span |
| QuarterCandidates.AliasQuarterCandidates | src/stanstock/data/sec_fundamentals.py:847-902 | every reported quarter and accepted difference, grouped by quarter end in the order found |
| QuarterCandidates.CandidateOrigins | src/stanstock/data/sec_fundamentals.py:867-902 | each candidate is one reported quarter, or the difference of two year-to-date facts of one alias, unit and start |
| AnchoredEvidence.CandidateIsFromFacts | src/stanstock/data/sec_fundamentals.py:847-902 | every candidate is a fact of 70 to 110 days as filed, or what remains between two neighbouring facts of one alias, unit and start, with its amount, period, lineage and availability |
| AnchoredEvidence.SubtractedIsCandidate | src/stanstock/data/sec_fundamentals.py:877-902 | conversely every such remainder is a candidate, when no other fact has the dates of the two |
| AnchoredTtm.SelectionIsTop | src/stanstock/data/sec_fundamentals.py:905-944 | the selected observation is a candidate that no other outranks |
| AnchoredTtm.TopFactIsTop | src/stanstock/data/sec_fundamentals.py:1270-1293 | the controlling filing is a cited fact of highest rank |
| AnchoredTtm.AliasQuarterSeries | src/stanstock/data/sec_fundamentals.py:947-979 | one selected observation per quarter end, ends ascending |
| AnchoredTtm.OnePerEndIsRight | src/stanstock/data/sec_fundamentals.py:971-979 | that series covers exactly the candidates' ends, with an unbeaten candidate at each |
| AnchoredTtm.FindAnchor | src/stanstock/data/sec_fundamentals.py:1115-1176 | the first alias of highest controlling rank at the newest quarter |
| AnchoredTtm.AnchoredTtm | src/stanstock/data/sec_fundamentals.py:1021-1238 | for one concept, the specified outcome: absent, withheld with its reason, or a value with its window |
| AnchoredEvidence.OutcomeSaysOfFacts | src/stanstock/data/sec_fundamentals.py:1021-1359 | every outcome said of the filed facts: absent without a considered fact, withheld without a quarter or without a full year, and otherwise the last four quarters of the alias whose controlling filing at the newest end is the most current, with the sum or the day-weighted average, the cited facts, and the availability of the last of the four |
| AnchoredEvidence.ControllingByFields | src/stanstock/data/sec_fundamentals.py:1270-1293 | an observation is controlled by the most current fact it cites: by availability, revision, alias place and accession |
| AnchoredEvidence.KeptStandsBefore | src/stanstock/data/sec_fundamentals.py:905-944 | the observation kept for a quarter end stands before every candidate of it, with the larger identity among equals |
| AnchoredEvidence.CurrentByFields | src/stanstock/data/sec_fundamentals.py:1046-1080 | the facts an alias is assessed by: one for each of its periods, the most current when availability follows revision |
| AnchoredEvidence.NothingLaterIsFiled | src/stanstock/data/sec_fundamentals.py:1114-1116 | no quarter that a current fact of any alias files ends after a trailing value |
| AnchoredEvidence.ExaminedCanonically | src/stanstock/data/sec_fundamentals.py:650-674 | facts are examined by concept, alias, end, start, period, availability, revision, accession, unit and identity hash |
| AnchoredTtm.AvailableIsAnchored | src/stanstock/data/sec_fundamentals.py:1114-1267 | a value ends at the newest quarter end of all aliases, is built from four contiguous quarters of one alias and unit spanning 350 to 380 days, that alias has maximal controlling rank there, and the amount is the sum or lies between the quarters |
| AnchoredTtm.AnchorIsAlwaysReadable | src/stanstock/data/sec_fundamentals.py:1157-1163 | the no-readable-filing reason never occurs, since observations cite facts of the request |
| AnchoredTtm.OutcomeIgnoresInputOrder | src/stanstock/data/sec_fundamentals.py:650-674 | with distinct canonical keys the outcome is the same for every input order |
| AnchoredYear.YearToDateFactsGiveTheirYear | src/stanstock/data/sec_fundamentals.py:847-1359 | four year-to-date facts of one alias unroll to a homogeneous tail whose trailing value is the full year as filed |
| AnchoredYear.YearToDateRequestGivesItsYear | src/stanstock/data/sec_fundamentals.py:538-1359 | a request whose facts of the concept are such a year, in any order among others, has an available outcome of that alias with exactly the filed full-year value and period |
| TargetJobs.JobTable.NextAttempt | src/stanstock/core/jobs.py:172-178 | one more than the largest attempt of the target |
| TargetJobs.JobTable.ScanAttempts | src/stanstock/data/jobs.py:181-205 | the gates recorded, the active reservations and whether the market succeeded |
| TargetJobs.JobTable.ReserveLocked | src/stanstock/data/jobs.py:151-289 | the exact refusal, or the gate, the reservation and the new table; said of the rows: granted iff the rows hold at most one gate, it is not the opposite of the explicit one, output has a gate, and the reservation is the expected one or held by no running run; a held gate is granted, else the explicit one, else the sampled one |
| TargetJobs.RefusedExactly | src/stanstock/data/jobs.py:207-265 | refusal iff the request is not admissible by the rows |
| TargetJobs.GrantFollowsRows | src/stanstock/data/jobs.py:228-243 | the gate that a reservation or a result of the target says is the one granted |
| TargetJobs.GrantReserves | src/stanstock/data/jobs.py:245-289 | the reservation granted is the expected one unchanged, a free one with its new owner, or a new attempt, and the only one; without one the market succeeded |
| TargetJobs.JobTable.OpenAttempt | src/stanstock/core/jobs.py:51-122 | skips onto the success, or fails every other running attempt and creates or consumes the attempt |
| TargetJobs.OpeningFollowsRows | src/stanstock/core/jobs.py:51-122 | row by row: a succeeded target only gains a skip naming the success, a reservation that is not running changes nothing, and otherwise every other running attempt is failed now and the target runs the reserved or a new attempt |
| TargetJobs.JobTable.FailStaleAttempts | src/stanstock/core/jobs.py:84-96 | exactly the target's running rows except the reserved one become failed and finished |
| TargetJobs.JobTable.FinishAttempt | src/stanstock/core/jobs.py:131-150 | only this run's row changes; it is finished now, never RUNNING, FAILED with its old details iff the task raised or returned an unsupported status, and otherwise of the returned status and details |
| TargetJobs.FrozenGateForRun | src/stanstock/data/jobs.py:292-333 | a gate it returns is recorded on a SUCCESS of the run's own target |
| TargetJobs.GateForRunExactly | src/stanstock/data/jobs.py:292-333 | a run answers with a gate iff it is of the daily job and it succeeded, or was skipped for a success of its target, that says this gate |
| JobProtocol.Reachable | src/stanstock/core/jobs.py:37-191 | every interleaving of calls, steps and crashes keeps the protocol invariant |
| JobProtocol.TablesStayLawful | src/stanstock/core/models.py:27-46 | at most one SUCCESS per target, attempts increasing in creation order, finished iff not running, and every skip points in one hop to its target's SUCCESS |
| JobProtocol.TerminalRowsArePermanent | src/stanstock/core/jobs.py:84-150 | once terminal, nothing in a row ever changes |
| JobProtocol.NoTaskStartsAfterSuccess | src/stanstock/core/jobs.py:50-132 | a task body starts only while its target has no SUCCESS and no other body under way |
| JobProtocol.OneFrozenGate | src/stanstock/data/jobs.py:151-289 | all gates recorded for a target are equal, committed output and success imply one, reservations are unique and exclude success |
| JobProtocol.ExplicitGateIsHonoured | src/stanstock/data/jobs.py:228-243 | on every possible trace a market process told which gate to use never stands anywhere with the other one |
| JobProtocol.GateStepFollowsRows | src/stanstock/data/jobs.py:151-289 | on every possible trace asking for the gate is refused and changes nothing, or finds the rows admissible; the gate follows them and from then on is the only one they hold, so the first caller that names none freezes the setting |
| JobProtocol.FinishByFields | src/stanstock/core/jobs.py:124-160 | a task's end changes its own row alone, and the process leaves with its run and gate iff the row did not fail |
| JobProtocol.AcquireByFields | src/stanstock/core/jobs.py:181-212 | a target's lock is taken only when free, by the process that asks, and no other lock changes |
| JobProtocol.OpenByFields | src/stanstock/core/jobs.py:37-122 | a process opens with the reservation and gate it was granted and skips, gets ready or is refused as the rows say |
| JobProtocol.LaunchByFields | src/stanstock/data/jobs.py:354-361 | the market job's row says its gate before the task does anything, and nothing else changes |
| JobProtocol.CommitByFields | src/stanstock/data/jobs.py:368-376 | output appears for the market process's own target and nothing else changes |
| JobProtocol.ReleaseByFields | src/stanstock/core/jobs.py:181-212 | letting go frees exactly that target and answers with the run and gate, or with the error |
| JobProtocol.CrashByFields | src/stanstock/core/jobs.py:195-250 | a crash leaves rows and output and frees exactly the lock the process held |
| JobProtocol.FinalCheckExactly | src/stanstock/data/jobs.py:406-412 | the closing comparison passes iff the run answers with the process's gate |
| JobProtocol.AssertionsNeverFire | src/stanstock/data/jobs.py:207-226 | the conflict, missing-gate, several-reservations, reservation-not-running and final-mismatch errors never occur from an empty table |
| JobProtocol.HeldWhileOwnerRuns | src/stanstock/data/jobs.py:245-265 | no step touches a reservation whose owner runs, except by a job that was handed it |
| JobProtocol.ReservationOutlastsOthers | src/stanstock/data/jobs.py:245-265 | the same over any continuation during which the owner keeps running |
| JobProtocol.SuccessIsReachable | src/stanstock/data/jobs.py:336-412 | from no rows a market job can run to a SUCCESS that carries its gate |
| LiquidityEvidence.Acquisition.AcquirePairs | src/stanstock/data/liquidity_evidence.py:971-1129 | the exception that leaves, or exactly the receipts and entries of the attempted symbols |
| LiquidityOutcome.AcquireAndReport | src/stanstock/data/liquidity_evidence.py:971-1129 | said of the provider's answers: the exceptions that leave, and otherwise one entry for each requested symbol with its stored assets and its reason, and receipts of exactly the requests made |
| LiquidityOutcome.StopsByFields | src/stanstock/data/liquidity_evidence.py:1064-1115 | no further symbol is requested iff a quota, configuration or escaping failure was raised, or the canary's pair was not stored, read back and matched |
| LiquidityOutcome.RequestedByFields | src/stanstock/data/liquidity_evidence.py:1047-1063 | a symbol is requested iff preflight passed, the canary and it are listed, and no listed symbol before it, the canary first and then in requested order, stopped the plan |
| LiquidityEvidence.VerifyBatch | src/stanstock/data/liquidity_evidence.py:471-675 | of the batch checks those on scope, receipts, bound, source ownership and witness: accepts iff all hold |
| LiquidityOutcome.AcceptedByFields | src/stanstock/data/liquidity_evidence.py:471-675 | accepts iff entries cite exactly what was acquired for them, receipts are in plan, and no symbol but the canary has one unless the canary's acquired pair matches and comes first |
| LiquidityOutcome.AcceptedReceiptsByFields | src/stanstock/data/liquidity_evidence.py:487-511 | receipts are accepted iff within the captured dates, at most one a symbol and mode, canary first and then in requested order, and an unadjusted one right after its own acquired split |
| LiquidityOutcome.PlanIsBounded | src/stanstock/data/liquidity_evidence.py:512-513 | such receipts are never more than two a requested symbol |
| LiquidityEvidence.VerifyReceipts | src/stanstock/data/liquidity_evidence.py:483-513 | accepts iff every receipt is in scope, unique, in order and follows its fresh split |
| LiquidityEvidence.ProducerSatisfiesVerifier | src/stanstock/data/liquidity_evidence.py:1047-1129 | for every pattern of provider failures, what a returning producer leaves passes the verifier, with at most two requests a listing |
| LiquidityEvidence.CanaryComesFirst | src/stanstock/data/liquidity_evidence.py:667-675 | any other symbol's receipt comes after the canary's complete, matched pair |
| LiquidityEvidence.RequestedExactly | src/stanstock/data/liquidity_evidence.py:1047-1115 | a symbol is requested iff the canary is listed, preflight passed and no earlier symbol stopped the plan |
| SecIngestion.AssetStore.PersistPayload | src/stanstock/data/sec_ingestion.py:1284-1379 | reuses the newest stored asset with the same content (and filename), else appends exactly one |
| SecIngestion.AssetStore.LatestHistoryAsset | src/stanstock/data/sec_ingestion.py:809-818 | the newest stored history asset of that CIK and filename |
| SecIngestion.AssetStore.IngestCompany | src/stanstock/data/sec_ingestion.py:510-806 | what it cites, fetch by fetch: the submissions it fetched, the companyfacts it fetched when due and else the observed ones, each listed history file as fetched when due and else the newest stored one, in filename order; it fails iff a due fetch does, and stores nothing else |
| SecIngestion.AssetStore.RunSecIngestion | src/stanstock/data/sec_ingestion.py:416-484 | emits the mapping and then each covered company's references in the configuration's order; each cites the submissions just fetched, and a company due for reconciliation only what was fetched |
| SecIngestion.ChosenByPlace | src/stanstock/data/sec_ingestion.py:452-484 | covers exactly the mappings whose symbol is selected and not excluded, in order |
| SecIngestion.IngestAndVerify | src/stanstock/data/sec_refresh_validation.py:115-216 | a full-universe run with the pinned mapping is accepted on both paths, with 1 + sum of (2 + filenames) references |
| SecClosure.VerifySecStage | src/stanstock/data/sec_refresh_validation.py:115-216 | accepts iff the list is the canonical one of some stored, admitted closure |
| SecStage.StageByBlocks | src/stanstock/data/sec_refresh_validation.py:115-216 | accepts iff the list is the mapping's reference and one block for each CIK in order, submissions, history files in filename order, facts, each naming a stored row of that kind and CIK with its checksum, available and retrieved by the cutoff |
| SecClosure.CanonicalLength | src/stanstock/data/sec_refresh_validation.py:206-211 | the length of a canonical list |
| SecClosure.PartsAt | src/stanstock/data/sec_refresh_validation.py:140-209 | grouping a canonical body by kind and CIK gives back each company's parts |
| CreditBudget.ProviderCreditBudget.Preflight | src/stanstock/data/live_us.py:155-170 | passes iff enabled, readable and within what is left of the day |
| CreditBudget.ProviderCreditBudget.Consume | src/stanstock/data/live_us.py:172-231 | refuses and stores nothing, or reserves the next slot and charges the day |
| CreditBudget.ConsumeByFields | src/stanstock/data/live_us.py:172-226 | in seconds and stored numbers: accepted iff enabled and readable with less used that day, from midnight to midnight UTC, than the stored limit or 800; the slot is the later of now and the stored one, one more is used, and the next slot is 60 seconds divided by the stored rate or 8 later |
| CreditBudget.PassesByFields | src/stanstock/data/live_us.py:155-170 | preflight passes iff the credits fit under the stored limit or 800 after what that UTC day used |
| CreditBudget.SlotsAreSpaced | src/stanstock/data/live_us.py:199-226 | reserved slots are at least 60/k seconds apart, whatever the clock does |
| CreditBudget.AtMostKPerMinute | src/stanstock/data/live_us.py:199-226 | any half-open 60-second window holds at most k of them |
| CreditBudget.DailyCap | src/stanstock/data/live_us.py:192-197 | from any stored record, at most the daily limit is accepted on each UTC day, whenever no day comes back after another (`ForwardIsUnbroken`: as with every forward clock) |
| CreditBudget.DayCapHoldsExactly | src/stanstock/data/live_us.py:172-231 | a sequence of clock readings keeps every stored record within its limit iff no UTC day comes back after a different one |
| CreditBudget.DailyTally | src/stanstock/data/live_us.py:1805-1822 | with a forward clock and no usage date ahead of it, credits used before the run count toward the day's limit too and the stored tally is exact |
| CreditBudget.BackwardClockOverspends | src/stanstock/data/live_us.py:1805-1822 | a clock that steps back over midnight makes a day overspend |
| CreditBudget.PreflightGuaranteesExactly | src/stanstock/data/live_us.py:155-231 | a passed preflight(n) makes the next n consumes succeed at any later instants, across midnight too, iff the limit per minute and the next slot are readable and a usage date ahead of the check is readable and leaves n credits |
| CreditBudget.PreflightCanMislead | src/stanstock/data/live_us.py:155-216 | a record with an unreadable next slot that passes preflight and refuses the first consume |
| FilingMerge.FoldFailsExactly | src/stanstock/data/sec_ingestion.py:1818-1839 | folding an accession fails iff two of its records conflict |
| FilingMerge.MergeByFields | src/stanstock/data/sec_ingestion.py:1818-1868 | two records merge iff they disagree on nothing both supply, into what either supplies, and name the source of the one with an exact acceptance, else a report date, else a document, else the current snapshot, the earlier retrieval, the earlier availability, the smaller key |
| FilingMerge.FoldByFields | src/stanstock/data/sec_ingestion.py:1807-1868 | a fold carries exactly the dates, document and exact acceptance its records supply between them, or the derived instant |
| FilingMerge.FoldIgnoresOrder | src/stanstock/data/sec_ingestion.py:1840-1868 | failure and every field but the source asset are order-independent |
| FilingSource.TwoRecordsShareSource | src/stanstock/data/sec_ingestion.py:1837-1868 | two records merge to one source asset in either order, or conflict in both |
| FilingSource.FoldKey | src/stanstock/data/sec_ingestion.py:1844-1868 | a fold's own ranking key is the join of its records' keys: all fields they supply, on the asset that ranked first along the way |
| FilingSource.ThreeSuffice | src/stanstock/data/sec_ingestion.py:1807-1868 | the ranking key of any number of merged records is the key of some three of them merged in some order |
| FilingSource.SourceIgnoresOrderExactly | src/stanstock/data/sec_ingestion.py:1841-1859 | any number of agreeing records name one source asset in every order iff some record settles it: each merge of three that supplies every field names its source or ranks after it |
| FilingSource.ThreeShareSourceExactly | src/stanstock/data/sec_ingestion.py:1841-1859 | three agreeing records of three assets name one source in every order iff one of them ranks before the merge of the other two |
| FilingSource.ThreeRecordsCanDiffer | src/stanstock/data/sec_ingestion.py:1841-1859 | three agreeing records of which none does, so that the order decides the source |
| FilingSource.UniformRecordsNameLeastSource | src/stanstock/data/sec_ingestion.py:1844-1868 | when all records supply the same fields every order names the first-ranked asset |
| FilingMerge.FilingIndex | src/stanstock/data/sec_ingestion.py:1807-1815 | raises on an accession that does not fold, else indexes every fold |
| FilingMerge.InspectionFilingIndex | src/stanstock/data/sec_ingestion.py:2785-2803 | indexes exactly the accessions that fold and reports exactly those that do not |
| FilingMerge.IndexByRecords | src/stanstock/data/sec_ingestion.py:2785-2803 | an accession is indexed iff it is reported and no two of its records disagree, with what they supply between them, and set aside iff two do |
| FilingMerge.StrictAndTolerantAgree | src/stanstock/data/sec_ingestion.py:1807-1815 | the strict index raises iff the tolerant one reports an ambiguous accession, and otherwise they are equal |

## Left out

- CorrectionLedger.LedgerRefinesObservationLog: is about one raw slot with a fixed acceptance; the lookup that keeps different slots of one company apart is modelled as the slot's own log.
- CorrectionLedger.FactTable.PersistFactDerivation: the fact's label fields are one opaque text, and a database constraint that fires is an outcome rather than an exception.
- LineageReconciliation.Reconcile: a lineage's fourth component is a pair of signature and number instead of the text "signature:number", and the order used for repeated signatures is a parameter.
- LineageOrder.OrderIsIrrelevant: takes the stable components to follow from the signature, as both are hashed from one content, and the lineage order to be total, as comparing tuples of texts is.
- LineageReconciliation.ReconcileSnapshot: the hash of stable components is the tuple of the components themselves.
- FxConversion.FxConverter.Convert: currency codes are numbers in alphabetical order, already upper-case, the carry is non-negative by type, and floating-point rounding is not modelled.
- QuarterCandidates.AliasQuarterCandidates: the loop's pair test is one function of two neighbouring facts passed to the loops, and accession and concept texts of a quarter are not carried.
- AnchoredEvidence.SubtractedIsCandidate: asks that no second fact of the alias, unit and start ends on either day; among such facts the order of arrival decides which are neighbours.
- VintageSelection.VintagesAreMostCurrent: asks that availability follows revision within a series; without it the comparator can cycle (`InvertedRevisionsCycle`).
- AnchoredTtm.AnchoredTtm: one concept at a time; the provenance payload of every alias and the free-cash-flow combination are not modelled.
- JobProtocol.Reachable: a crash is a step that removes a process and its lock; lock acquisition has no fairness, and each database transaction is one step.
- TargetJobs.JobTable.ReserveLocked: malformed details of a row are excluded by type, and a reservation owner is either the word "daily" or the number of a run.
- LiquidityEvidence.VerifyBatch: covers scope, receipts, source ownership and witness; the content checks of each stored source (catalog identity, raw bytes, normalized values, chronology) are not modelled.
- LiquidityEvidence.ProducerSatisfiesVerifier: whether the control pair can be read back is part of the environment, and the witness status is a function of the two stored responses.
- ObservationEvents.Observations.Persist: racing inserts are serialised, as the uniqueness constraint does; other integrity faults are not modelled.
- SecIngestion.AssetStore.IngestCompany: whether reconciliation, a retry or a completed normalization applies is an input; the normalization itself and the request budget are elsewhere or not modelled.
- SecIngestion.IngestAndVerify: the version and hash fields of the stage details, the universe coverage check and the mapping's exchange check are not modelled, and stored assets are taken as retrieved before the stage ended.
- CreditBudget.DailyTally: credits used before the run are counted only when the stored usage date is not ahead of the clock; `DailyCap` needs no such condition.
- The legacy quarter and trailing series (`_quarter_series`, `_ttm_series`): they keep one observation per end by availability alone; the differencing, contiguity and tail rules they share are modelled.
- The annual, instant and balance-sheet series, alias instants and the missing-evidence report: selection by the comparator already modelled, without new arithmetic.
- Price bands, overview statistics, refresh verification field by field, backups, provider transport, key storage, scheduling and the web views: no state or arithmetic that another property here needs.
- Error texts, logging and payload dictionaries: not part of any property.
