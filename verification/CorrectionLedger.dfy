/** The immutable ledger of SEC facts: how a revision chain's availability is
    resolved, which rows a past cutoff may read, and how a fresh retrieval is
    persisted (sec_fundamentals.py and sec_ingestion.py).

    One ledger holds the rows of one company. Instants are integers and SHA-256
    observation hashes are the hashed fields themselves, compared for equality. */
module CorrectionLedger {
  import opened Wrappers
  import opened Sorting

  type Instant = int

  /** The `unique_fundamental_vintage` key without its revision. */
  datatype Identity = Identity(sourceConcept: string, period: string, accession: string, unit: string)

  datatype ObservationHash = ObservationHash(identity: Identity, value: real, acceptanceAt: Instant, labels: string)

  datatype Basis = AcceptanceDatetime | FiledDateNextDay | Legacy | SameAccessionCorrection

  datatype Asset = Asset(id: nat, retrievedAt: Instant)

  datatype Fact = Fact(
    pk: nat,
    identity: Identity,
    concept: string,
    revision: nat,
    value: real,
    labels: string,
    hash: Option<ObservationHash>,
    availableAt: Instant,
    basis: Basis,
    source: Asset)

  // ---------------------------------------------------------------------
  // Availability resolution
  // ---------------------------------------------------------------------

  datatype Resolution =
    | OriginalAcceptance
    | BoundObservation
    | LegacyAssetRetrieval
    | UnprovableLegacyReversion
    | UnprovableLegacyOrdering

  datatype Resolved = Resolved(provenAt: Option<Instant>, basis: Resolution, earliestPossibleAt: Option<Instant>)

  predicate Earlier(g: Fact, f: Fact) {
    g.identity == f.identity && g.revision < f.revision
  }

  /** Table constraints: primary keys and (identity, revision) are unique. */
  ghost predicate UniqueVintages(ledger: seq<Fact>) {
    forall i, j :: 0 <= i < j < |ledger| ==>
      && ledger[i].pk != ledger[j].pk
      && !(ledger[i].identity == ledger[j].identity && ledger[i].revision == ledger[j].revision)
  }

  /** Some earlier revision of the chain carries exactly this content. */
  ghost predicate RestatesEarlierContent(ledger: seq<Fact>, f: Fact) {
    f.hash.Some? && exists g :: g in ledger && Earlier(g, f) && g.hash == f.hash
  }

  function OwnBoundary(f: Fact): Instant {
    Max(f.availableAt, f.source.retrievedAt)
  }

  /** When f is proven to have been knowable, stated over the whole ledger with
      no running maximum and no processing order. */
  ghost function ProvenAt(ledger: seq<Fact>, f: Fact): Option<Instant>
    decreases f.revision, 0
  {
    if f.revision <= 1 || f.basis == SameAccessionCorrection then Some(f.availableAt)
    else if RestatesEarlierContent(ledger, f) then None
    else if exists g :: g in ledger && Earlier(g, f) && ProvenAfter(ledger, g, OwnBoundary(f)) then None
    else Some(OwnBoundary(f))
  }

  ghost predicate ProvenAfter(ledger: seq<Fact>, g: Fact, bound: Instant)
    decreases g.revision, 1
  {
    ProvenAt(ledger, g).Some? && ProvenAt(ledger, g).value > bound
  }

  function ResolveOne(f: Fact, running: Option<Instant>, seen: set<ObservationHash>): Resolved {
    if f.revision <= 1 then Resolved(Some(f.availableAt), OriginalAcceptance, None)
    else if f.basis == SameAccessionCorrection then Resolved(Some(f.availableAt), BoundObservation, None)
    else if f.hash.Some? && f.hash.value in seen then Resolved(None, UnprovableLegacyReversion, None)
    else if running.Some? && running.value > OwnBoundary(f) then
      Resolved(None, UnprovableLegacyOrdering, running)
    else Resolved(Some(OwnBoundary(f)), LegacyAssetRetrieval, None)
  }

  /** What a resolution entry must say about f, given the whole ledger. */
  ghost predicate Resolves(ledger: seq<Fact>, f: Fact, entry: Resolved) {
    && entry.provenAt == ProvenAt(ledger, f)
    && (entry.basis.LegacyAssetRetrieval? ==> ProvenAt(ledger, f).Some?)
    && (entry.basis.UnprovableLegacyOrdering? ==> ProvenAt(ledger, f).None? && !RestatesEarlierContent(ledger, f))
    && (entry.basis.OriginalAcceptance? <==> f.revision <= 1)
    && (entry.basis.BoundObservation? <==> f.revision > 1 && f.basis == SameAccessionCorrection)
    && (entry.basis.UnprovableLegacyReversion? <==> ProvenAt(ledger, f).None? && RestatesEarlierContent(ledger, f))
    && (entry.earliestPossibleAt.Some? <==> entry.basis.UnprovableLegacyOrdering?)
    && (entry.earliestPossibleAt.Some? ==> GreatestProvenBefore(ledger, f, entry.earliestPossibleAt.value))
  }

  ghost predicate GreatestProvenBefore(ledger: seq<Fact>, f: Fact, bound: Instant) {
    && (exists g :: g in ledger && Earlier(g, f) && ProvenAt(ledger, g) == Some(bound))
    && (forall g :: g in ledger && Earlier(g, f) ==> !ProvenAfter(ledger, g, bound))
  }

  function ByRevision(f: Fact, g: Fact): bool {
    f.revision <= g.revision
  }

  /** The rows of one identity chain, in input order. */
  function Chain(facts: seq<Fact>, key: Identity): (chain: seq<Fact>)
    ensures forall f :: f in chain <==> f in facts && f.identity == key
  {
    if facts == [] then []
    else
      var last := facts[|facts| - 1];
      assert facts == facts[..|facts| - 1] + [last];
      var chain := Chain(facts[..|facts| - 1], key);
      if last.identity == key then chain + [last] else chain
  }

  /** `running` is the largest boundary proven among s. */
  ghost predicate IsRunning(ledger: seq<Fact>, s: seq<Fact>, running: Option<Instant>) {
    match running
    case None => forall g :: g in s ==> ProvenAt(ledger, g) == None
    case Some(bound) =>
      && (exists g :: g in s && ProvenAt(ledger, g) == running)
      && (forall g :: g in s ==> !ProvenAfter(ledger, g, bound))
  }

  ghost predicate StrictlyByRevision(s: seq<Fact>) {
    forall i, j :: 0 <= i < j < |s| ==> s[i].revision < s[j].revision
  }

  lemma PrefixIsEarlier(sorted: seq<Fact>, k: nat, g: Fact)
    requires StrictlyByRevision(sorted) && k < |sorted|
    ensures g in sorted[..k] <==> g in sorted && g.revision < sorted[k].revision
  {
    if g in sorted && g.revision < sorted[k].revision {
      var j :| 0 <= j < |sorted| && sorted[j] == g;
      assert j < k;
      assert sorted[..k][j] == g;
    }
  }

  lemma {:induction false} ChainKeepsOrder(facts: seq<Fact>, key: Identity, i: nat, j: nat)
    requires i < j < |Chain(facts, key)|
    ensures exists a, b :: 0 <= a < b < |facts| && facts[a] == Chain(facts, key)[i] && facts[b] == Chain(facts, key)[j]
  {
    var n := |facts| - 1;
    var chain := Chain(facts[..n], key);
    if j < |chain| {
      ChainKeepsOrder(facts[..n], key, i, j);
      var a, b :| 0 <= a < b < n && facts[..n][a] == chain[i] && facts[..n][b] == chain[j];
      assert facts[a] == chain[i] && facts[b] == chain[j];
    } else {
      assert Chain(facts, key)[i] == chain[i] && chain[i] in facts[..n];
      var a :| 0 <= a < n && facts[..n][a] == chain[i];
      assert facts[a] == chain[i] && facts[n] == Chain(facts, key)[j];
    }
  }

  lemma ChainIsDistinct(ledger: seq<Fact>, key: Identity)
    requires UniqueVintages(ledger)
    ensures Distinct(Chain(ledger, key))
  {
    var chain := Chain(ledger, key);
    forall i, j | 0 <= i < j < |chain| ensures chain[i] != chain[j] {
      ChainKeepsOrder(ledger, key, i, j);
    }
  }

  lemma SortedIsStrict(ledger: seq<Fact>, key: Identity)
    requires UniqueVintages(ledger)
    ensures StrictlyByRevision(Sort(Chain(ledger, key), ByRevision))
  {
    var chain := Chain(ledger, key);
    var sorted := Sort(chain, ByRevision);
    ChainIsDistinct(ledger, key);
    SortIsOrderedPermutation(chain, ByRevision);
    SameMembers(sorted, chain);
    PermutationKeepsDistinct(chain, sorted);
    OrderedIsStrict(ledger, key, sorted);
  }

  lemma OrderedIsStrict(ledger: seq<Fact>, key: Identity, sorted: seq<Fact>)
    requires UniqueVintages(ledger) && Ordered(sorted, ByRevision) && Distinct(sorted)
    requires forall f :: f in sorted ==> f in ledger && f.identity == key
    ensures StrictlyByRevision(sorted)
  {
    forall i, j | 0 <= i < j < |sorted| ensures sorted[i].revision < sorted[j].revision {
      assert ByRevision(sorted[i], sorted[j]);
      assert sorted[i] in ledger && sorted[j] in ledger;
    }
  }

  /** One row, resolved from the accumulators, meets the whole-ledger statement. */
  lemma ResolveOneIsSound(ledger: seq<Fact>, before: seq<Fact>, f: Fact, running: Option<Instant>,
                          seen: set<ObservationHash>)
    requires forall g :: g in before <==> g in ledger && Earlier(g, f)
    requires IsRunning(ledger, before, running)
    requires AreHashesOf(seen, before)
    ensures Resolves(ledger, f, ResolveOne(f, running, seen))
  {
    var entry := ResolveOne(f, running, seen);
    if f.hash.Some? {
      assert f.hash.value in seen <==> RestatesEarlierContent(ledger, f);
    }
    if running.Some? && running.value > OwnBoundary(f) {
      var g :| g in before && ProvenAt(ledger, g) == running;
      assert ProvenAfter(ledger, g, OwnBoundary(f));
    } else {
      forall g | g in ledger && Earlier(g, f) ensures !ProvenAfter(ledger, g, OwnBoundary(f)) {
        assert g in before;
      }
    }
  }

  lemma RunningAdvances(ledger: seq<Fact>, before: seq<Fact>, f: Fact, running: Option<Instant>)
    requires IsRunning(ledger, before, running)
    ensures IsRunning(ledger, before + [f], NextRunning(running, ProvenAt(ledger, f)))
  {
    var proven := ProvenAt(ledger, f);
    if running.Some? {
      var g :| g in before && ProvenAt(ledger, g) == running;
      assert g in before + [f];
    }
    assert f in before + [f];
    if proven.Some? {
      var next := if running.None? then proven.value else Max(running.value, proven.value);
      forall g | g in before + [f] ensures !ProvenAfter(ledger, g, next) {
        if running.Some? && g in before { assert !ProvenAfter(ledger, g, running.value); }
      }
    }
  }

  function Remember(seen: set<ObservationHash>, f: Fact): set<ObservationHash> {
    if f.hash.Some? then seen + {f.hash.value} else seen
  }

  ghost predicate AreHashesOf(seen: set<ObservationHash>, s: seq<Fact>) {
    forall h :: h in seen <==> exists g :: g in s && g.hash == Some(h)
  }

  lemma SeenAdvances(seen: set<ObservationHash>, before: seq<Fact>, f: Fact)
    requires AreHashesOf(seen, before)
    ensures AreHashesOf(Remember(seen, f), before + [f])
  {
    forall h ensures h in Remember(seen, f) <==> exists g :: g in before + [f] && g.hash == Some(h) {
      if h in seen {
        var g :| g in before && g.hash == Some(h);
        assert g in before + [f];
      }
      assert f in before + [f];
    }
  }

  ghost predicate IsSortedChain(ledger: seq<Fact>, key: Identity, sorted: seq<Fact>) {
    && StrictlyByRevision(sorted)
    && (forall g :: g in sorted <==> g in ledger && g.identity == key)
  }

  lemma SortedChain(ledger: seq<Fact>, key: Identity)
    requires UniqueVintages(ledger)
    ensures IsSortedChain(ledger, key, Sort(Chain(ledger, key), ByRevision))
  {
    SortIsOrderedPermutation(Chain(ledger, key), ByRevision);
    SameMembers(Sort(Chain(ledger, key), ByRevision), Chain(ledger, key));
    SortedIsStrict(ledger, key);
  }

  ghost predicate Accumulated(ledger: seq<Fact>, before: seq<Fact>, running: Option<Instant>,
                              seen: set<ObservationHash>) {
    IsRunning(ledger, before, running) && AreHashesOf(seen, before)
  }

  function NextRunning(running: Option<Instant>, proven: Option<Instant>): Option<Instant> {
    if proven.None? then running
    else if running.None? then proven
    else Some(Max(running.value, proven.value))
  }

  lemma ResolveStep(ledger: seq<Fact>, key: Identity, sorted: seq<Fact>, k: nat, running: Option<Instant>,
                    seen: set<ObservationHash>)
    requires IsSortedChain(ledger, key, sorted) && k < |sorted|
    requires Accumulated(ledger, sorted[..k], running, seen)
    ensures
      var entry := ResolveOne(sorted[k], running, seen);
      && Resolves(ledger, sorted[k], entry)
      && Accumulated(ledger, sorted[..k + 1], NextRunning(running, entry.provenAt), Remember(seen, sorted[k]))
  {
    var f := sorted[k];
    var before := sorted[..k];
    forall g ensures g in before <==> g in ledger && Earlier(g, f) {
      PrefixIsEarlier(sorted, k, g);
    }
    ResolveOneIsSound(ledger, before, f, running, seen);
    RunningAdvances(ledger, before, f, running);
    SeenAdvances(seen, before, f);
    PrefixExtends(sorted, k);
  }

  method ResolveChain(ghost ledger: seq<Fact>, ghost key: Identity, chain: seq<Fact>)
    returns (sorted: seq<Fact>, entries: seq<Resolved>)
    requires UniqueVintages(ledger) && chain == Chain(ledger, key)
    ensures IsSortedChain(ledger, key, sorted) && |entries| == |sorted|
    ensures forall i :: 0 <= i < |sorted| ==> Resolves(ledger, sorted[i], entries[i])
  {
    sorted := Sort(chain, ByRevision);
    SortedChain(ledger, key);
    entries := ResolveSorted(ledger, key, sorted);
  }

  ghost predicate ResolvedSoFar(ledger: seq<Fact>, sorted: seq<Fact>, k: nat, entries: seq<Resolved>,
                                running: Option<Instant>, seen: set<ObservationHash>) {
    && k <= |sorted| && |entries| == k
    && (forall i :: 0 <= i < k ==> Resolves(ledger, sorted[i], entries[i]))
    && Accumulated(ledger, sorted[..k], running, seen)
  }

  lemma ResolveNext(ledger: seq<Fact>, key: Identity, sorted: seq<Fact>, k: nat, entries: seq<Resolved>,
                    running: Option<Instant>, seen: set<ObservationHash>)
    requires IsSortedChain(ledger, key, sorted) && k < |sorted|
      && ResolvedSoFar(ledger, sorted, k, entries, running, seen)
    ensures var entry := ResolveOne(sorted[k], running, seen);
      ResolvedSoFar(ledger, sorted, k + 1, entries + [entry], NextRunning(running, entry.provenAt),
        Remember(seen, sorted[k]))
  {
    ResolveStep(ledger, key, sorted, k, running, seen);
  }

  /** `_resolve_one` along the chain, revision by revision. */
  method ResolveSorted(ghost ledger: seq<Fact>, ghost key: Identity, sorted: seq<Fact>) returns (entries: seq<Resolved>)
    requires IsSortedChain(ledger, key, sorted)
    ensures |entries| == |sorted|
    ensures forall i :: 0 <= i < |sorted| ==> Resolves(ledger, sorted[i], entries[i])
  {
    entries := [];
    var running: Option<Instant> := None;
    var seen: set<ObservationHash> := {};
    for k := 0 to |sorted|
      invariant ResolvedSoFar(ledger, sorted, k, entries, running, seen)
    {
      ResolveNext(ledger, key, sorted, k, entries, running, seen);
      var entry := ResolveOne(sorted[k], running, seen);
      entries := entries + [entry];
      seen := Remember(seen, sorted[k]);
      running := NextRunning(running, entry.provenAt);
    }
  }

  ghost predicate Grouped(chains: map<Identity, seq<Fact>>, facts: seq<Fact>) {
    forall key ::
      && (key in chains <==> Chain(facts, key) != [])
      && (key in chains ==> chains[key] == Chain(facts, key))
  }

  lemma GroupStep(chains: map<Identity, seq<Fact>>, facts: seq<Fact>, k: nat)
    requires k < |facts| && Grouped(chains, facts[..k])
    ensures
      var f := facts[k];
      var chain := if f.identity in chains then chains[f.identity] else [];
      Grouped(chains[f.identity := chain + [f]], facts[..k + 1])
  {
    PrefixExtends(facts, k);
    assert facts[..k + 1][..k] == facts[..k];
  }

  ghost predicate IsResolved(ledger: seq<Fact>, resolved: map<nat, Resolved>, f: Fact) {
    f.pk in resolved && Resolves(ledger, f, resolved[f.pk])
  }

  method RecordChain(ghost ledger: seq<Fact>, resolved: map<nat, Resolved>, sorted: seq<Fact>, entries: seq<Resolved>)
    returns (extended: map<nat, Resolved>)
    requires UniqueVintages(ledger) && |entries| == |sorted|
    requires forall i :: 0 <= i < |sorted| ==> sorted[i] in ledger && Resolves(ledger, sorted[i], entries[i])
    ensures forall f :: f in ledger && (f in sorted || IsResolved(ledger, resolved, f)) ==>
      IsResolved(ledger, extended, f)
  {
    extended := resolved;
    for i := 0 to |sorted|
      invariant forall f :: f in ledger && IsResolved(ledger, resolved, f) ==> IsResolved(ledger, extended, f)
      invariant forall j :: 0 <= j < i ==> IsResolved(ledger, extended, sorted[j])
    {
      ghost var before := extended;
      extended := extended[sorted[i].pk := entries[i]];
      forall f | f in ledger && IsResolved(ledger, before, f) ensures IsResolved(ledger, extended, f) {
        if f.pk == sorted[i].pk { assert f == sorted[i]; }
      }
    }
  }

  /** The two clocks of a row: when it says it was available, and when the bytes
      it came from were retrieved. */
  predicate ByBothClocks(f: Fact, at: Instant) {
    f.availableAt <= at && f.source.retrievedAt <= at
  }

  /** An original or bound row is proven by its own availability. A legacy
      correction is proven by the later of its two clocks, if at all. */
  predicate ProvenByClocks(f: Fact, provenAt: Option<Instant>) {
    if f.revision <= 1 || f.basis == SameAccessionCorrection then provenAt == Some(f.availableAt)
    else provenAt.Some? ==>
      ByBothClocks(f, provenAt.value) && (provenAt.value == f.availableAt || provenAt.value == f.source.retrievedAt)
  }

  /** Nothing behind a legacy correction speaks against it: no earlier revision
      carries its content, and none is proven after both its clocks. */
  ghost predicate Unopposed(ledger: seq<Fact>, f: Fact) {
    forall g :: g in ledger && g.identity == f.identity && g.revision < f.revision ==>
      && (f.hash.Some? ==> g.hash != f.hash)
      && (ProvenAt(ledger, g).Some? ==>
            ProvenAt(ledger, g).value <= f.availableAt || ProvenAt(ledger, g).value <= f.source.retrievedAt)
  }

  /** An earlier revision of the row's chain has its content. */
  ghost predicate Repeated(ledger: seq<Fact>, f: Fact) {
    f.hash.Some? && exists g :: g in ledger && g.identity == f.identity && g.revision < f.revision && g.hash == f.hash
  }

  /** The reason given with a row's instant. Only a row proven too late behind it
      gives the latest such instant as context. */
  ghost predicate ReasonFits(ledger: seq<Fact>, f: Fact, entry: Resolved) {
    && (entry.basis == if f.revision <= 1 then OriginalAcceptance
                       else if f.basis == SameAccessionCorrection then BoundObservation
                       else if Repeated(ledger, f) then UnprovableLegacyReversion
                       else if entry.provenAt.None? then UnprovableLegacyOrdering
                       else LegacyAssetRetrieval)
    && (entry.basis == UnprovableLegacyOrdering <==> entry.earliestPossibleAt.Some?)
    && (entry.earliestPossibleAt.Some? ==> LatestBehind(ledger, f, entry.earliestPossibleAt.value))
  }

  /** The latest instant at which an earlier revision is proven, which is after both clocks of f. */
  ghost predicate LatestBehind(ledger: seq<Fact>, f: Fact, at: Instant) {
    && at > f.availableAt && at > f.source.retrievedAt
    && (exists g :: g in ledger && g.identity == f.identity && g.revision < f.revision
         && ProvenAt(ledger, g) == Some(at))
    && (forall g :: g in ledger && g.identity == f.identity && g.revision < f.revision ==>
          ProvenAt(ledger, g).None? || ProvenAt(ledger, g).value <= at)
  }

  lemma ReasonFromClocks(ledger: seq<Fact>, f: Fact, entry: Resolved)
    requires Resolves(ledger, f, entry)
    ensures ReasonFits(ledger, f, entry)
  {
    assert Repeated(ledger, f) <==> RestatesEarlierContent(ledger, f);
    if entry.earliestPossibleAt.Some? {
      var at := entry.earliestPossibleAt.value;
      var g :| g in ledger && Earlier(g, f) && ProvenAfter(ledger, g, OwnBoundary(f));
      assert !ProvenAfter(ledger, g, at);
      forall h | h in ledger && h.identity == f.identity && h.revision < f.revision && ProvenAt(ledger, h).Some?
        ensures ProvenAt(ledger, h).value <= at
      {
        assert Earlier(h, f) && !ProvenAfter(ledger, h, at);
      }
    }
  }

  /** What a row's entry says, in the row's own fields. */
  ghost predicate ResolvedByClocks(ledger: seq<Fact>, f: Fact, entry: Resolved) {
    && ProvenByClocks(f, entry.provenAt) && ReasonFits(ledger, f, entry)
    && (f.revision > 1 && f.basis != SameAccessionCorrection ==> (entry.provenAt.Some? <==> Unopposed(ledger, f)))
  }

  /** On any ledger: when a row is proven, and by which clocks. */
  lemma ProvenFromClocks(ledger: seq<Fact>, f: Fact)
    ensures ProvenByClocks(f, ProvenAt(ledger, f))
    ensures f.revision > 1 && f.basis != SameAccessionCorrection ==>
      (ProvenAt(ledger, f).Some? <==> Unopposed(ledger, f))
  {
    if f.revision > 1 && f.basis != SameAccessionCorrection {
      if Unopposed(ledger, f) {
        forall g | g in ledger && Earlier(g, f) ensures !ProvenAfter(ledger, g, OwnBoundary(f)) {}
      } else {
        var g :| g in ledger && g.identity == f.identity && g.revision < f.revision
          && !((f.hash.Some? ==> g.hash != f.hash)
               && (ProvenAt(ledger, g).Some? ==>
                     ProvenAt(ledger, g).value <= f.availableAt || ProvenAt(ledger, g).value <= f.source.retrievedAt));
        assert Earlier(g, f);
        if !(f.hash.Some? && g.hash == f.hash) {
          assert ProvenAfter(ledger, g, OwnBoundary(f));
        }
      }
    }
  }

  /** `resolve_availability`: every row's entry says what the whole ledger proves,
      and by which of the row's clocks. */
  method ResolveAvailability(facts: seq<Fact>) returns (resolved: map<nat, Resolved>)
    requires UniqueVintages(facts)
    ensures forall f :: f in facts ==> IsResolved(facts, resolved, f) && ResolvedByClocks(facts, f, resolved[f.pk])
  {
    var chains: map<Identity, seq<Fact>> := map[];
    for k := 0 to |facts|
      invariant Grouped(chains, facts[..k])
    {
      GroupStep(chains, facts, k);
      var f := facts[k];
      chains := chains[f.identity := (if f.identity in chains then chains[f.identity] else []) + [f]];
    }
    assert facts[..|facts|] == facts;
    resolved := map[];
    var todo := chains.Keys;
    while todo != {}
      invariant todo <= chains.Keys
      invariant forall f :: f in facts && f.identity !in todo ==> IsResolved(facts, resolved, f)
    {
      var key :| key in todo;
      var sorted, entries := ResolveChain(facts, key, chains[key]);
      resolved := RecordChain(facts, resolved, sorted, entries);
      todo := todo - {key};
    }
    forall f | f in facts ensures IsResolved(facts, resolved, f) && ResolvedByClocks(facts, f, resolved[f.pk]) {
      assert f in Chain(facts, f.identity);
      ProvenFromClocks(facts, f);
      ReasonFromClocks(facts, f, resolved[f.pk]);
    }
  }

  // ---------------------------------------------------------------------
  // The as-of readers
  // ---------------------------------------------------------------------

  ghost predicate Admits(ledger: seq<Fact>, cutoff: Instant, f: Fact) {
    ProvenAt(ledger, f).Some? && ProvenAt(ledger, f).value <= cutoff
  }

  /** The rows of `rows` the resolution over `ledger` admits, in input order. */
  ghost function Admitted(ledger: seq<Fact>, rows: seq<Fact>, cutoff: Instant): (r: seq<Fact>)
    ensures forall f :: f in r <==> f in rows && Admits(ledger, cutoff, f)
  {
    if rows == [] then []
    else
      var last := rows[|rows| - 1];
      assert rows == rows[..|rows| - 1] + [last];
      var r := Admitted(ledger, rows[..|rows| - 1], cutoff);
      if Admits(ledger, cutoff, last) then r + [last] else r
  }

  /** `partition_unproven_corrections`. */
  method PartitionUnprovenCorrections(facts: seq<Fact>, availableThrough: Instant)
    returns (admitted: seq<Fact>, deferred: seq<(Fact, Resolved)>)
    requires UniqueVintages(facts)
    ensures admitted == Admitted(facts, facts, availableThrough)
    ensures RowsOf(deferred) == Rejected(facts, facts, availableThrough)
    ensures forall entry :: entry in deferred ==> Resolves(facts, entry.0, entry.1)
  {
    var resolved := ResolveAvailability(facts);
    admitted, deferred := Split(facts, resolved, availableThrough);
  }

  ghost predicate IsDeferred(facts: seq<Fact>, availableThrough: Instant, entry: (Fact, Resolved)) {
    entry.0 in facts && !Admits(facts, availableThrough, entry.0) && Resolves(facts, entry.0, entry.1)
  }

  /** The other rows, in input order. */
  ghost function Rejected(ledger: seq<Fact>, rows: seq<Fact>, cutoff: Instant): (r: seq<Fact>)
    ensures forall f :: f in r <==> f in rows && !Admits(ledger, cutoff, f)
  {
    if rows == [] then []
    else
      var last := rows[|rows| - 1];
      assert rows == rows[..|rows| - 1] + [last];
      var r := Rejected(ledger, rows[..|rows| - 1], cutoff);
      if Admits(ledger, cutoff, last) then r else r + [last]
  }

  function RowsOf(deferred: seq<(Fact, Resolved)>): seq<Fact> {
    if deferred == [] then [] else RowsOf(deferred[..|deferred| - 1]) + [deferred[|deferred| - 1].0]
  }

  lemma RowsNext(deferred: seq<(Fact, Resolved)>, entry: (Fact, Resolved))
    ensures RowsOf(deferred + [entry]) == RowsOf(deferred) + [entry.0]
  {
    assert (deferred + [entry])[..|deferred|] == deferred;
  }

  lemma EntryDecides(facts: seq<Fact>, resolved: map<nat, Resolved>, f: Fact, cutoff: Instant)
    requires f in facts && IsResolved(facts, resolved, f)
    ensures resolved[f.pk].provenAt.Some? && resolved[f.pk].provenAt.value <= cutoff <==> Admits(facts, cutoff, f)
    ensures Admits(facts, cutoff, f) || IsDeferred(facts, cutoff, (f, resolved[f.pk]))
  {
  }

  lemma SplitNext(facts: seq<Fact>, k: nat, cutoff: Instant)
    requires k < |facts|
    ensures Admitted(facts, facts[..k + 1], cutoff) ==
      Admitted(facts, facts[..k], cutoff) + if Admits(facts, cutoff, facts[k]) then [facts[k]] else []
    ensures Rejected(facts, facts[..k + 1], cutoff) ==
      Rejected(facts, facts[..k], cutoff) + if Admits(facts, cutoff, facts[k]) then [] else [facts[k]]
  {
    assert facts[..k + 1][..k] == facts[..k];
  }

  ghost predicate AllDeferred(facts: seq<Fact>, cutoff: Instant, deferred: seq<(Fact, Resolved)>) {
    forall entry :: entry in deferred ==> IsDeferred(facts, cutoff, entry)
  }

  lemma DeferNext(facts: seq<Fact>, cutoff: Instant, deferred: seq<(Fact, Resolved)>, entry: (Fact, Resolved))
    requires AllDeferred(facts, cutoff, deferred) && IsDeferred(facts, cutoff, entry)
    ensures AllDeferred(facts, cutoff, deferred + [entry])
  {
  }

  method Split(facts: seq<Fact>, resolved: map<nat, Resolved>, availableThrough: Instant)
    returns (admitted: seq<Fact>, deferred: seq<(Fact, Resolved)>)
    requires forall f :: f in facts ==> IsResolved(facts, resolved, f)
    ensures admitted == Admitted(facts, facts, availableThrough)
    ensures RowsOf(deferred) == Rejected(facts, facts, availableThrough)
    ensures AllDeferred(facts, availableThrough, deferred)
  {
    admitted, deferred := [], [];
    for k := 0 to |facts|
      invariant admitted == Admitted(facts, facts[..k], availableThrough)
      invariant RowsOf(deferred) == Rejected(facts, facts[..k], availableThrough)
      invariant AllDeferred(facts, availableThrough, deferred)
    {
      var f := facts[k];
      EntryDecides(facts, resolved, f, availableThrough);
      SplitNext(facts, k, availableThrough);
      var entry := resolved[f.pk];
      if entry.provenAt.Some? && entry.provenAt.value <= availableThrough {
        admitted := admitted + [f];
      } else {
        DeferNext(facts, availableThrough, deferred, (f, entry));
        RowsNext(deferred, (f, entry));
        deferred := deferred + [(f, entry)];
      }
    }
    assert facts[..|facts|] == facts;
  }

  /** Rows whose recorded availability precedes the cutoff, as the as-of query selects them. */
  function VisibleAt(ledger: seq<Fact>, cutoff: Instant): (r: seq<Fact>)
    ensures forall f :: f in r <==> f in ledger && f.availableAt <= cutoff
  {
    if ledger == [] then []
    else
      var last := ledger[|ledger| - 1];
      assert ledger == ledger[..|ledger| - 1] + [last];
      var r := VisibleAt(ledger[..|ledger| - 1], cutoff);
      if last.availableAt <= cutoff then r + [last] else r
  }

  /** What a reader at `cutoff` uses: the availability query, then the partition. */
  ghost function AsOf(ledger: seq<Fact>, cutoff: Instant): seq<Fact> {
    Admitted(VisibleAt(ledger, cutoff), VisibleAt(ledger, cutoff), cutoff)
  }

  /** Point in time: nothing is admitted or used before its own availability, and
      no legacy correction before its bytes were retrieved. A legacy correction
      that nothing speaks against is admitted from the later of the two on. */
  lemma AdmittedByClocks(ledger: seq<Fact>, cutoff: Instant, f: Fact)
    ensures f in AsOf(ledger, cutoff) || Admits(ledger, cutoff, f) ==> f.availableAt <= cutoff
    ensures f in AsOf(ledger, cutoff) || Admits(ledger, cutoff, f) ==>
      f.revision <= 1 || f.basis == SameAccessionCorrection || f.source.retrievedAt <= cutoff
    ensures f.revision <= 1 || f.basis == SameAccessionCorrection ==>
      (Admits(ledger, cutoff, f) <==> f.availableAt <= cutoff)
      && (f in AsOf(ledger, cutoff) <==> f in ledger && f.availableAt <= cutoff)
    ensures f.revision > 1 && f.basis != SameAccessionCorrection ==>
      (Admits(ledger, cutoff, f) <==>
        Unopposed(ledger, f) && f.availableAt <= cutoff && f.source.retrievedAt <= cutoff)
  {
    ProvenFromClocks(ledger, f);
    ProvenFromClocks(VisibleAt(ledger, cutoff), f);
  }

  /** Resolution of a row depends only on the earlier revisions of its own chain. */
  lemma {:induction false} ProvenDependsOnEarlier(a: seq<Fact>, b: seq<Fact>, f: Fact)
    requires forall g :: Earlier(g, f) ==> (g in a <==> g in b)
    ensures ProvenAt(a, f) == ProvenAt(b, f)
    decreases f.revision
  {
    forall g | Earlier(g, f) ensures ProvenAt(a, g) == ProvenAt(b, g) {
      ProvenDependsOnEarlier(a, b, g);
    }
    assert RestatesEarlierContent(a, f) == RestatesEarlierContent(b, f);
    var bound := OwnBoundary(f);
    assert (exists g :: g in a && Earlier(g, f) && ProvenAfter(a, g, bound))
        == (exists g :: g in b && Earlier(g, f) && ProvenAfter(b, g, bound));
  }

  /** Availability never decreases along a revision chain. */
  ghost predicate MonotoneAvailability(ledger: seq<Fact>) {
    forall f, g :: f in ledger && g in ledger && Earlier(g, f) ==> g.availableAt <= f.availableAt
  }

  /** A correction persisted before boundaries were bound to observations. */
  predicate IsLegacy(f: Fact) {
    f.revision > 1 && f.basis != SameAccessionCorrection
  }

  lemma ProvenIsNotEarly(ledger: seq<Fact>, f: Fact)
    requires ProvenAt(ledger, f).Some?
    ensures ProvenAt(ledger, f).value >= f.availableAt
  {
  }

  /** A restated content goes back to the revision that first carried it. */
  lemma {:induction false} FirstCarrier(ledger: seq<Fact>, f: Fact) returns (h: Fact)
    requires RestatesEarlierContent(ledger, f)
    ensures h in ledger && Earlier(h, f) && h.hash == f.hash && !RestatesEarlierContent(ledger, h)
    decreases f.revision
  {
    h :| h in ledger && Earlier(h, f) && h.hash == f.hash;
    if RestatesEarlierContent(ledger, h) {
      h := FirstCarrier(ledger, h);
    }
  }

  /** Whatever leaves a row unproven hides behind a proven earlier boundary: its
      own, or that of the row that first carried its content. */
  lemma ProvenOrOvertaken(ledger: seq<Fact>, h: Fact)
    requires !RestatesEarlierContent(ledger, h)
    ensures ProvenAt(ledger, h).Some? ||
      exists g :: g in ledger && Earlier(g, h) && ProvenAfter(ledger, g, OwnBoundary(h))
  {
  }

  /** A restated hidden row would put a proven boundary after the cutoff. */
  lemma RestatedBeyond(ledger: seq<Fact>, cutoff: Instant, f: Fact)
    requires RestatesEarlierContent(ledger, f) && !RestatesEarlierContent(VisibleAt(ledger, cutoff), f)
    ensures exists g :: g in ledger && Earlier(g, f) && ProvenAfter(ledger, g, cutoff)
  {
    var h := FirstCarrier(ledger, f);
    assert h !in VisibleAt(ledger, cutoff);
    ProvenOrOvertaken(ledger, h);
    if ProvenAt(ledger, h).Some? {
      ProvenIsNotEarly(ledger, h);
      assert ProvenAfter(ledger, h, cutoff);
    } else {
      var g :| g in ledger && Earlier(g, h) && ProvenAfter(ledger, g, OwnBoundary(h));
      assert Earlier(g, f) && ProvenAfter(ledger, g, cutoff);
    }
  }

  /** A row whose boundary in view lies after `bound` has, in the whole ledger,
      a boundary after `bound` of its own or behind it. */
  lemma BoundaryInWholeLedger(ledger: seq<Fact>, cutoff: Instant, g: Fact, bound: Instant)
    requires g in VisibleAt(ledger, cutoff) && ProvenAfter(VisibleAt(ledger, cutoff), g, bound) && bound <= cutoff
    ensures ProvenAfter(ledger, g, bound) || exists h :: h in ledger && Earlier(h, g) && ProvenAfter(ledger, h, bound)
  {
    var visible := VisibleAt(ledger, cutoff);
    if IsLegacy(g) && ProvenAt(ledger, g).None? {
      assert ProvenAt(visible, g) == Some(OwnBoundary(g));
      if RestatesEarlierContent(ledger, g) {
        RestatedBeyond(ledger, cutoff, g);
        var h :| h in ledger && Earlier(h, g) && ProvenAfter(ledger, h, cutoff);
        assert ProvenAfter(ledger, h, bound);
      } else {
        var h :| h in ledger && Earlier(h, g) && ProvenAfter(ledger, h, OwnBoundary(g));
        assert ProvenAfter(ledger, h, bound);
      }
    }
  }

  lemma RestatesInView(ledger: seq<Fact>, cutoff: Instant, f: Fact)
    ensures RestatesEarlierContent(VisibleAt(ledger, cutoff), f) ==> RestatesEarlierContent(ledger, f)
  {
  }

  /** Filtering by recorded availability before resolving the chains, as the
      readers do, never drops a row that resolving the whole ledger admits. */
  lemma VisibilityFilterDropsNothing(ledger: seq<Fact>, cutoff: Instant, f: Fact)
    requires f in ledger && Admits(ledger, cutoff, f)
    ensures f in AsOf(ledger, cutoff)
    ensures ProvenAt(VisibleAt(ledger, cutoff), f) == ProvenAt(ledger, f)
  {
    var visible := VisibleAt(ledger, cutoff);
    ProvenIsNotEarly(ledger, f);
    assert f in visible;
    if IsLegacy(f) {
      RestatesInView(ledger, cutoff, f);
      forall g | g in visible && Earlier(g, f)
        ensures !ProvenAfter(visible, g, OwnBoundary(f))
      {
        if ProvenAfter(visible, g, OwnBoundary(f)) {
          BoundaryInWholeLedger(ledger, cutoff, g, OwnBoundary(f));
        }
      }
    }
  }

  /** A proven earlier revision of f that the cutoff hides. */
  ghost predicate HidesProven(ledger: seq<Fact>, cutoff: Instant, f: Fact) {
    exists g :: g in ledger && Earlier(g, f) && g.availableAt > cutoff && ProvenAt(ledger, g).Some?
  }

  /** What a used legacy row says of its chain in view. */
  lemma UsedIsLast(ledger: seq<Fact>, cutoff: Instant, f: Fact, g: Fact)
    requires f in AsOf(ledger, cutoff) && IsLegacy(f)
    requires g in VisibleAt(ledger, cutoff) && Earlier(g, f)
    ensures !ProvenAfter(VisibleAt(ledger, cutoff), g, OwnBoundary(f)) && OwnBoundary(f) <= cutoff
  {
  }

  /** A boundary after the cutoff in the whole ledger, of a row in view, has one
      in view at or behind it. */
  lemma BoundaryInView(ledger: seq<Fact>, cutoff: Instant, g: Fact, bound: Instant)
    requires g in VisibleAt(ledger, cutoff) && ProvenAfter(ledger, g, bound)
    ensures var visible := VisibleAt(ledger, cutoff);
      ProvenAfter(visible, g, bound) || exists h :: h in visible && Earlier(h, g) && ProvenAfter(visible, h, bound)
  {
    var visible := VisibleAt(ledger, cutoff);
    if IsLegacy(g) && ProvenAt(visible, g).None? {
      RestatesInView(ledger, cutoff, g);
      var h :| h in visible && Earlier(h, g) && ProvenAfter(visible, h, OwnBoundary(g));
      assert ProvenAfter(visible, h, bound);
    }
  }

  /** With none hidden, whatever is proven behind a row the reader uses is
      proven no later than that row's own boundary. */
  lemma NothingProvenBeyond(ledger: seq<Fact>, cutoff: Instant, f: Fact, g: Fact)
    requires f in AsOf(ledger, cutoff) && IsLegacy(f) && !HidesProven(ledger, cutoff, f)
    requires g in ledger && Earlier(g, f)
    ensures !ProvenAfter(ledger, g, OwnBoundary(f)) && OwnBoundary(f) <= cutoff
  {
    var visible := VisibleAt(ledger, cutoff);
    assert f in visible && Admits(visible, cutoff, f);
    forall h | h in visible && Earlier(h, f)
      ensures !ProvenAfter(visible, h, OwnBoundary(f))
    {
      UsedIsLast(ledger, cutoff, f, h);
    }
    if ProvenAfter(ledger, g, OwnBoundary(f)) {
      BoundaryInView(ledger, cutoff, g, OwnBoundary(f));
    }
  }

  lemma HiddenProofWithholds(ledger: seq<Fact>, cutoff: Instant, f: Fact)
    requires f in AsOf(ledger, cutoff) && IsLegacy(f) && HidesProven(ledger, cutoff, f)
    ensures ProvenAt(ledger, f).None?
  {
    var g :| g in ledger && Earlier(g, f) && g.availableAt > cutoff && ProvenAt(ledger, g).Some?;
    assert f in VisibleAt(ledger, cutoff) && Admits(VisibleAt(ledger, cutoff), cutoff, f);
    ProvenIsNotEarly(ledger, g);
    assert ProvenAfter(ledger, g, OwnBoundary(f));
  }

  lemma NothingHiddenAdmits(ledger: seq<Fact>, cutoff: Instant, f: Fact)
    requires f in AsOf(ledger, cutoff) && IsLegacy(f) && !HidesProven(ledger, cutoff, f)
    ensures Admits(ledger, cutoff, f)
  {
    var visible := VisibleAt(ledger, cutoff);
    assert f in visible && Admits(visible, cutoff, f) && !RestatesEarlierContent(visible, f);
    if RestatesEarlierContent(ledger, f) {
      RestatedBeyond(ledger, cutoff, f);
      var g :| g in ledger && Earlier(g, f) && ProvenAfter(ledger, g, cutoff);
      NothingProvenBeyond(ledger, cutoff, f, g);
      assert false;
    }
    forall g | g in ledger && Earlier(g, f)
      ensures !ProvenAfter(ledger, g, OwnBoundary(f))
    {
      NothingProvenBeyond(ledger, cutoff, f, g);
    }
  }

  /** The filter admits a row the whole ledger does not exactly when it is a
      legacy correction and the cutoff hides a proven earlier revision. */
  lemma VisibilityFilterAdmitsMoreExactly(ledger: seq<Fact>, cutoff: Instant, f: Fact)
    requires f in AsOf(ledger, cutoff)
    ensures f in ledger
    ensures Admits(ledger, cutoff, f) <==> !(IsLegacy(f) && HidesProven(ledger, cutoff, f))
  {
    assert f in VisibleAt(ledger, cutoff) && Admits(VisibleAt(ledger, cutoff), cutoff, f);
    if IsLegacy(f) {
      if HidesProven(ledger, cutoff, f) {
        HiddenProofWithholds(ledger, cutoff, f);
      } else {
        NothingHiddenAdmits(ledger, cutoff, f);
      }
    }
  }

  /** The reader uses exactly what the whole ledger admits. */
  ghost predicate FilterIsHarmless(ledger: seq<Fact>, cutoff: Instant) {
    forall f :: f in AsOf(ledger, cutoff) <==> f in ledger && Admits(ledger, cutoff, f)
  }

  /** The readers' filter is harmless at a cutoff exactly when it hides nothing
      proven behind a legacy row they use; so it always is on a ledger whose
      availability never falls along a chain. */
  lemma VisibilityFilterIsHarmless(ledger: seq<Fact>, cutoff: Instant)
    ensures FilterIsHarmless(ledger, cutoff) <==>
      forall f :: f in AsOf(ledger, cutoff) && IsLegacy(f) ==> !HidesProven(ledger, cutoff, f)
    ensures MonotoneAvailability(ledger) ==> FilterIsHarmless(ledger, cutoff)
  {
    forall f
      ensures f in AsOf(ledger, cutoff) ==>
        f in ledger && (Admits(ledger, cutoff, f) <==> !(IsLegacy(f) && HidesProven(ledger, cutoff, f)))
      ensures f in ledger && Admits(ledger, cutoff, f) ==> f in AsOf(ledger, cutoff)
    {
      if f in AsOf(ledger, cutoff) {
        VisibilityFilterAdmitsMoreExactly(ledger, cutoff, f);
      } else if f in ledger && Admits(ledger, cutoff, f) {
        VisibilityFilterDropsNothing(ledger, cutoff, f);
      }
    }
    if MonotoneAvailability(ledger) {
      forall f | f in AsOf(ledger, cutoff) ensures !HidesProven(ledger, cutoff, f) {
        assert f in VisibleAt(ledger, cutoff);
      }
    }
  }

  /** A stored row whose hash covers what it carries. */
  function Row(pk: nat, id: Identity, concept: string, revision: nat, value: real, labels: string,
               acceptanceAt: Instant,
               basis: Basis, source: Asset): Fact {
    Fact(pk, id, concept, revision, value, labels, Some(ObservationHash(id, value, acceptanceAt, labels)),
         acceptanceAt, basis, source)
  }

  /** It does matter: a second revision accepted by a next-day rule and a third
      whose acceptance was since made exact, all three persisted before boundaries
      were bound to observations and with different content. The cutoff 35 hides
      the second and uses the third, which the whole chain leaves unproven. */
  lemma VisibilityFilterCanAdmitMore(id: Identity, concept: string, labels: string)
    ensures
      var first := Row(0, id, concept, 1, 100.0, labels, 40, FiledDateNextDay, Asset(0, 10));
      var second := Row(1, id, concept, 2, 101.0, labels, 40, FiledDateNextDay, Asset(1, 20));
      var third := Row(2, id, concept, 3, 102.0, labels, 10, AcceptanceDatetime, Asset(2, 30));
      var ledger := [first, second, third];
      && UniqueVintages(ledger) && HashesFaithful(ledger)
      && third in AsOf(ledger, 35) && !Admits(ledger, 35, third)
  {
    HiddenChain(Row(0, id, concept, 1, 100.0, labels, 40, FiledDateNextDay, Asset(0, 10)),
                Row(1, id, concept, 2, 101.0, labels, 40, FiledDateNextDay, Asset(1, 20)),
                Row(2, id, concept, 3, 102.0, labels, 10, AcceptanceDatetime, Asset(2, 30)), 35);
  }

  lemma HiddenChain(first: Fact, second: Fact, third: Fact, cutoff: Instant)
    requires Earlier(first, third) && Earlier(second, third) && first.revision == 1
    requires IsLegacy(third)
    requires first.availableAt > cutoff && second.availableAt > cutoff && OwnBoundary(third) <= cutoff
    ensures var ledger := [first, second, third];
      third in AsOf(ledger, cutoff) && !Admits(ledger, cutoff, third)
  {
    var ledger := [first, second, third];
    var visible := VisibleAt(ledger, cutoff);
    assert ledger[0] in ledger && ledger[2] in ledger;
    ProvenAlone(visible, third);
    assert ProvenAt(ledger, first) == Some(first.availableAt);
    VisibilityFilterAdmitsMoreExactly(ledger, cutoff, third);
  }

  /** With no predecessor in sight it is proven by its own boundary. */
  lemma ProvenAlone(visible: seq<Fact>, legacy: Fact)
    requires IsLegacy(legacy)
    requires forall g :: g in visible ==> !Earlier(g, legacy)
    ensures ProvenAt(visible, legacy) == Some(OwnBoundary(legacy))
  {
  }

  // ---------------------------------------------------------------------
  // Persisting one derivation
  // ---------------------------------------------------------------------

  datatype Derivation = Derivation(
    identity: Identity,
    concept: string,
    value: real,
    labels: string,
    acceptanceAt: Instant,
    filingBasis: Basis,
    signature: string)

  /** The persisted predecessor of a raw slot and the raw signature last seen there. */
  datatype Head = Head(fact: Fact, signature: string)

  datatype Outcome = Reused(fact: Fact) | Appended(fact: Fact) | IdentityCollision | RevisionCollision

  function HashOf(d: Derivation): ObservationHash {
    ObservationHash(d.identity, d.value, d.acceptanceAt, d.labels)
  }

  /** A stored hash covers the identity and the value it is stored under. */
  ghost predicate HashesFaithful(ledger: seq<Fact>) {
    forall f :: f in ledger && f.hash.Some? ==>
      f.hash.value.identity == f.identity && f.hash.value.value == f.value
  }

  function SameNormalizedObservation(d: Derivation, head: Option<Head>): bool {
    head.Some? && head.value.fact.hash == Some(HashOf(d)) && head.value.fact.concept == d.concept
  }

  /** The newest row is a legacy correction whose timing was never proven. */
  ghost predicate NeedsRebinding(ledger: seq<Fact>, latest: Fact) {
    latest.revision > 1 && latest.basis != SameAccessionCorrection && ProvenAt(ledger, latest).None?
  }

  function NewVintage(d: Derivation, source: Asset, observedAt: Instant, head: Option<Head>, pk: nat): Fact {
    Fact(pk, d.identity, d.concept,
         (if head.Some? then head.value.fact.revision else 0) + 1,
         d.value, d.labels, Some(HashOf(d)),
         if head.Some? then Max(d.acceptanceAt, observedAt) else d.acceptanceAt,
         if head.Some? then SameAccessionCorrection else d.filingBasis,
         source)
  }

  ghost predicate RevisionTaken(ledger: seq<Fact>, vintage: Fact, head: Option<Head>) {
    exists f :: f in ledger && f.identity == vintage.identity && f.revision == vintage.revision
                && !(head.Some? && f.pk == head.value.fact.pk)
  }

  ghost predicate IdentityTaken(ledger: seq<Fact>, d: Derivation) {
    exists f :: f in ledger && f.identity == d.identity
  }

  /** What `_persist_fact_derivation` decides. */
  ghost function Persist(ledger: seq<Fact>, d: Derivation, source: Asset, observedAt: Instant, head: Option<Head>,
                         pk: nat): Outcome {
    var vintage := NewVintage(d, source, observedAt, head, pk);
    if head.None? && IdentityTaken(ledger, d) then IdentityCollision
    else if SameNormalizedObservation(d, head) && head.value.signature == d.signature
            && !NeedsRebinding(ledger, head.value.fact) then Reused(head.value.fact)
    else if RevisionTaken(ledger, vintage, head) then RevisionCollision
    else Appended(vintage)
  }

  ghost function LedgerAfter(ledger: seq<Fact>, outcome: Outcome): seq<Fact> {
    if outcome.Appended? then ledger + [outcome.fact] else ledger
  }

  /** A stored row carries exactly what the retrieval brings. */
  predicate CarriesContent(f: Fact, d: Derivation) {
    && f.concept == d.concept && f.hash.Some?
    && f.hash.value.identity == d.identity && f.hash.value.value == d.value
    && f.hash.value.acceptanceAt == d.acceptanceAt && f.hash.value.labels == d.labels
  }

  /** A later row of the identity that was not bound to its observation, and
      whose chain speaks against both its clocks. */
  ghost predicate Unprovable(ledger: seq<Fact>, f: Fact) {
    f.revision > 1 && f.basis != SameAccessionCorrection && !Unopposed(ledger, f)
  }

  ghost predicate IdentityStored(ledger: seq<Fact>, d: Derivation) {
    exists f :: f in ledger && f.identity == d.identity
  }

  /** The same content seen again at the slot's head, whose timing needs no new proof. */
  ghost predicate Repeats(ledger: seq<Fact>, d: Derivation, head: Option<Head>) {
    && head.Some? && CarriesContent(head.value.fact, d) && head.value.signature == d.signature
    && !Unprovable(ledger, head.value.fact)
  }

  ghost predicate NextRevisionStored(ledger: seq<Fact>, d: Derivation, head: Option<Head>) {
    exists f :: f in ledger && f.identity == d.identity
                && if head.Some? then f.revision == head.value.fact.revision + 1 && f.pk != head.value.fact.pk
                   else f.revision == 1
  }

  /** A first row is available when its filing was accepted. Any later one waits
      for its own retrieval and says so. */
  predicate Vintage(f: Fact, d: Derivation, source: Asset, observedAt: Instant, head: Option<Head>, pk: nat) {
    && CarriesContent(f, d) && f.identity == d.identity && f.value == d.value && f.labels == d.labels
    && f.source == source && f.pk == pk
    && match head
       case None => f.revision == 1 && f.availableAt == d.acceptanceAt && f.basis == d.filingBasis
       case Some(h) =>
         && f.revision == h.fact.revision + 1 && f.basis == SameAccessionCorrection
         && f.availableAt >= d.acceptanceAt && f.availableAt >= observedAt
         && (f.availableAt == d.acceptanceAt || f.availableAt == observedAt)
  }

  /** What one retrieval of one raw slot does, field by field. */
  ghost predicate PersistsFields(ledger: seq<Fact>, d: Derivation, source: Asset, observedAt: Instant,
                                 head: Option<Head>, pk: nat, outcome: Outcome) {
    if head.None? && IdentityStored(ledger, d) then outcome == IdentityCollision
    else if Repeats(ledger, d, head) then outcome == Reused(head.value.fact)
    else if NextRevisionStored(ledger, d, head) then outcome == RevisionCollision
    else outcome.Appended? && Vintage(outcome.fact, d, source, observedAt, head, pk)
  }

  lemma PersistByFields(ledger: seq<Fact>, d: Derivation, source: Asset, observedAt: Instant, head: Option<Head>,
                        pk: nat)
    ensures PersistsFields(ledger, d, source, observedAt, head, pk,
              Persist(ledger, d, source, observedAt, head, pk))
  {
    assert IdentityStored(ledger, d) <==> IdentityTaken(ledger, d);
    if head.Some? {
      var f := head.value.fact;
      ProvenFromClocks(ledger, f);
      assert CarriesContent(f, d) <==> SameNormalizedObservation(d, head);
      assert Unprovable(ledger, f) <==> NeedsRebinding(ledger, f);
    }
    var vintage := NewVintage(d, source, observedAt, head, pk);
    assert NextRevisionStored(ledger, d, head) <==> RevisionTaken(ledger, vintage, head);
  }

  class FactTable {
    var facts: seq<Fact>

    ghost predicate Valid()
      reads this
    {
      UniqueVintages(facts) && HashesFaithful(facts)
    }

    constructor ()
      ensures Valid() && facts == []
    {
      facts := [];
    }

    method NeedsObservationRebinding(identity: Identity, latest: Fact) returns (r: bool)
      requires Valid() && latest in facts && latest.identity == identity
      ensures r == NeedsRebinding(facts, latest)
    {
      if latest.revision <= 1 || latest.basis == SameAccessionCorrection { return false; }
      var chain := Chain(facts, identity);
      ChainIsUnique(facts, identity);
      var resolved := ResolveAvailability(chain);
      assert IsResolved(chain, resolved, latest);
      ProvenDependsOnEarlier(chain, facts, latest);
      r := resolved[latest.pk].provenAt.None?;
    }

    method PersistFactDerivation(d: Derivation, source: Asset, observedAt: Instant, head: Option<Head>, pk: nat)
      returns (outcome: Outcome)
      requires Valid() && (head.Some? ==> head.value.fact in facts)
      requires forall f :: f in facts ==> f.pk != pk
      modifies this
      ensures Valid()
      ensures outcome == Persist(old(facts), d, source, observedAt, head, pk)
      ensures facts == LedgerAfter(old(facts), outcome)
      ensures PersistsFields(old(facts), d, source, observedAt, head, pk, outcome)
      ensures facts == if outcome.Appended? then old(facts) + [outcome.fact] else old(facts)
    {
      PersistByFields(facts, d, source, observedAt, head, pk);
      if head.None? && exists f | f in facts :: f.identity == d.identity {
        return IdentityCollision;
      }
      if SameNormalizedObservation(d, head) {
        var latest := head.value.fact;
        var rebinds := NeedsObservationRebinding(d.identity, latest);
        if head.value.signature == d.signature && !rebinds {
          return Reused(latest);
        }
      }
      var vintage := NewVintage(d, source, observedAt, head, pk);
      if exists f | f in facts ::
          f.identity == d.identity && f.revision == vintage.revision && !(head.Some? && f.pk == head.value.fact.pk) {
        return RevisionCollision;
      }
      facts := facts + [vintage];
      outcome := Appended(vintage);
    }
  }

  lemma ChainIsUnique(facts: seq<Fact>, key: Identity)
    requires UniqueVintages(facts)
    ensures UniqueVintages(Chain(facts, key))
  {
    var chain := Chain(facts, key);
    forall i, j | 0 <= i < j < |chain|
      ensures chain[i].pk != chain[j].pk
        && !(chain[i].identity == chain[j].identity && chain[i].revision == chain[j].revision)
    {
      ChainKeepsOrder(facts, key, i, j);
    }
  }

  // ---------------------------------------------------------------------
  // No backdating
  // ---------------------------------------------------------------------

  ghost predicate TopOfChain(ledger: seq<Fact>, vintage: Fact) {
    forall g :: g in ledger && g.identity == vintage.identity ==> g.revision < vintage.revision
  }

  lemma {:induction false} AdmittedIsLocal(a: seq<Fact>, b: seq<Fact>, rows: seq<Fact>, cutoff: Instant)
    requires forall f :: f in rows ==> Admits(a, cutoff, f) == Admits(b, cutoff, f)
    ensures Admitted(a, rows, cutoff) == Admitted(b, rows, cutoff)
  {
    if rows != [] {
      AdmittedIsLocal(a, b, rows[..|rows| - 1], cutoff);
    }
  }

  /** A bound correction that becomes available after a cutoff withholds from it
      exactly the legacy rows above it in its chain, and admits nothing new. */
  lemma BoundCorrectionWithholds(ledger: seq<Fact>, vintage: Fact, cutoff: Instant, f: Fact)
    requires vintage.basis == SameAccessionCorrection && vintage.availableAt > cutoff
    ensures Admits(ledger + [vintage], cutoff, f) <==>
      Admits(ledger, cutoff, f) && !(IsLegacy(f) && Earlier(vintage, f))
  {
    var grown := ledger + [vintage];
    if !Earlier(vintage, f) {
      ProvenDependsOnEarlier(grown, ledger, f);
    } else if IsLegacy(f) && OwnBoundary(f) <= cutoff {
      assert grown[|ledger|] == vintage;
      assert vintage in grown && ProvenAfter(grown, vintage, OwnBoundary(f));
    }
  }

  /** A legacy row above the vintage in its chain that the cutoff admits. */
  ghost predicate AdmitsAbove(ledger: seq<Fact>, vintage: Fact, cutoff: Instant) {
    exists f :: f in ledger && IsLegacy(f) && Earlier(vintage, f) && Admits(ledger, cutoff, f)
  }

  ghost predicate SameAdmissions(ledger: seq<Fact>, grown: seq<Fact>, cutoff: Instant) {
    Admitted(grown, grown, cutoff) == Admitted(ledger, ledger, cutoff)
  }

  /** On any ledger, legacy and unprovable rows included, a bound correction that
      became available after `cutoff` changes nothing the reader at `cutoff`
      uses. Resolving the whole ledger admits the same rows as before exactly
      when it admitted no legacy row above the correction; so always when the
      correction is appended on top of its chain. */
  lemma NoBackdating(ledger: seq<Fact>, vintage: Fact, cutoff: Instant)
    requires vintage.basis == SameAccessionCorrection && vintage.availableAt > cutoff
    ensures AsOf(ledger + [vintage], cutoff) == AsOf(ledger, cutoff)
    ensures SameAdmissions(ledger, ledger + [vintage], cutoff) <==> !AdmitsAbove(ledger, vintage, cutoff)
    ensures TopOfChain(ledger, vintage) ==> SameAdmissions(ledger, ledger + [vintage], cutoff)
  {
    var grown := ledger + [vintage];
    assert grown[..|grown| - 1] == ledger;
    assert VisibleAt(grown, cutoff) == VisibleAt(ledger, cutoff);
    assert !Admits(grown, cutoff, vintage);
    forall f ensures Admits(grown, cutoff, f) <==>
      Admits(ledger, cutoff, f) && !(IsLegacy(f) && Earlier(vintage, f))
    {
      BoundCorrectionWithholds(ledger, vintage, cutoff, f);
    }
    if f :| f in ledger && IsLegacy(f) && Earlier(vintage, f) && Admits(ledger, cutoff, f) {
      assert f in Admitted(ledger, ledger, cutoff) && f !in Admitted(grown, grown, cutoff);
    } else {
      AdmittedIsLocal(grown, ledger, ledger, cutoff);
    }
  }

  /** Persisting a correction retrieved at `observedAt` never reaches what a reader
      at an earlier cutoff uses, whatever the ledger held; and it leaves the whole
      ledger's admissions as they were unless it lands below an admitted legacy row. */
  lemma CorrectionsReachOnlyForward(ledger: seq<Fact>, d: Derivation, source: Asset, observedAt: Instant, head: Head,
                                    pk: nat, cutoff: Instant)
    requires cutoff < observedAt
    ensures
      var outcome := Persist(ledger, d, source, observedAt, Some(head), pk);
      var after := LedgerAfter(ledger, outcome);
      && AsOf(after, cutoff) == AsOf(ledger, cutoff)
      && (SameAdmissions(ledger, after, cutoff) <==> !(outcome.Appended? && AdmitsAbove(ledger, outcome.fact, cutoff)))
  {
    var vintage := NewVintage(d, source, observedAt, Some(head), pk);
    assert vintage.basis == SameAccessionCorrection && vintage.availableAt > cutoff;
    NoBackdating(ledger, vintage, cutoff);
    var outcome := Persist(ledger, d, source, observedAt, Some(head), pk);
    if outcome.Appended? {
      assert outcome.fact == vintage;
    } else {
      assert LedgerAfter(ledger, outcome) == ledger;
    }
  }

  /** A head that is not the top of its chain: the correction lands between it and
      a legacy third revision, which the cutoff admitted and no longer does. */
  lemma CorrectionBelowTheTopWithholds(id: Identity, concept: string, labels: string)
    ensures
      var first := Row(0, id, concept, 1, 100.0, labels, 5, AcceptanceDatetime, Asset(0, 5));
      var third := Row(1, id, concept, 3, 102.0, labels, 5, AcceptanceDatetime, Asset(1, 10));
      var d := Derivation(id, concept, 101.0, labels, 5, AcceptanceDatetime, "");
      var outcome := Persist([first, third], d, Asset(2, 50), 50, Some(Head(first, "")), 2);
      && UniqueVintages([first, third]) && HashesFaithful([first, third]) && outcome.Appended?
           && outcome.fact.revision == 2
      && Admits([first, third], 20, third) && !Admits(LedgerAfter([first, third], outcome), 20, third)
      && !SameAdmissions([first, third], LedgerAfter([first, third], outcome), 20)
  {
    var first := Row(0, id, concept, 1, 100.0, labels, 5, AcceptanceDatetime, Asset(0, 5));
    var third := Row(1, id, concept, 3, 102.0, labels, 5, AcceptanceDatetime, Asset(1, 10));
    var d := Derivation(id, concept, 101.0, labels, 5, AcceptanceDatetime, "");
    var ledger := [first, third];
    var vintage := NewVintage(d, Asset(2, 50), 50, Some(Head(first, "")), 2);
    assert Persist(ledger, d, Asset(2, 50), 50, Some(Head(first, "")), 2) == Appended(vintage);
    BetweenWithholds(first, third, vintage, 20);
  }

  lemma BetweenWithholds(first: Fact, third: Fact, vintage: Fact, cutoff: Instant)
    requires first.revision == 1 && IsLegacy(third) && Earlier(vintage, third) && third.hash != first.hash
    requires first.availableAt <= OwnBoundary(third) <= cutoff
    requires vintage.basis == SameAccessionCorrection && vintage.availableAt > cutoff
    ensures var ledger := [first, third];
      && Admits(ledger, cutoff, third) && !Admits(ledger + [vintage], cutoff, third)
      && !SameAdmissions(ledger, ledger + [vintage], cutoff)
  {
    var ledger := [first, third];
    LegacyOnFirst(first, third);
    assert ledger[1] in ledger;
    BoundCorrectionWithholds(ledger, vintage, cutoff, third);
    NoBackdating(ledger, vintage, cutoff);
  }

  lemma LegacyOnFirst(first: Fact, legacy: Fact)
    requires first.revision == 1 && IsLegacy(legacy) && legacy.hash != first.hash
      && first.availableAt <= OwnBoundary(legacy)
    ensures ProvenAt([first, legacy], legacy) == Some(OwnBoundary(legacy))
  {
    forall g | g in [first, legacy] && Earlier(g, legacy)
      ensures !ProvenAfter([first, legacy], g, OwnBoundary(legacy)) {
      assert g == first;
    }
  }

  // ---------------------------------------------------------------------
  // Re-ingesting unchanged content
  // ---------------------------------------------------------------------

  ghost predicate Unchanged(d: Derivation, head: Head) {
    SameNormalizedObservation(d, Some(head)) && head.signature == d.signature
  }

  /** An unchanged retrieval reuses the head unless it is an unproven legacy
      correction. Then it appends a row that is proven from that retrieval on, or
      is refused because that revision is taken. */
  lemma UnchangedAppendsOnlyToRebind(ledger: seq<Fact>, d: Derivation, source: Asset, observedAt: Instant, head: Head,
                                     pk: nat)
    requires HashesFaithful(ledger) && head.fact in ledger && Unchanged(d, head)
    ensures
      var outcome := Persist(ledger, d, source, observedAt, Some(head), pk);
      var taken := RevisionTaken(ledger, NewVintage(d, source, observedAt, Some(head), pk), Some(head));
      && (outcome == Reused(head.fact) <==> !NeedsRebinding(ledger, head.fact))
      && (outcome.Appended? <==> NeedsRebinding(ledger, head.fact) && !taken)
      && (outcome.RevisionCollision? <==> NeedsRebinding(ledger, head.fact) && taken)
      && (outcome.Appended? ==>
            && outcome.fact.value == head.fact.value
            && outcome.fact.hash == head.fact.hash
            && forall cutoff :: cutoff >= Max(d.acceptanceAt, observedAt) ==>
                 outcome.fact in AsOf(LedgerAfter(ledger, outcome), cutoff))
  {
    var outcome := Persist(ledger, d, source, observedAt, Some(head), pk);
    assert outcome.Appended? ==> outcome.fact in LedgerAfter(ledger, outcome);
  }

  /** Whatever the first unchanged retrieval left, the second and every later one
      reuses it, so rebinding happens at most once. */
  lemma RebindingHappensOnce(ledger: seq<Fact>, d: Derivation, first: Asset, firstAt: Instant, head: Head, pk: nat,
                             again: Asset, againAt: Instant, nextPk: nat)
    requires HashesFaithful(ledger) && head.fact in ledger && Unchanged(d, head)
    ensures
      var outcome := Persist(ledger, d, first, firstAt, Some(head), pk);
      var after := LedgerAfter(ledger, outcome);
      && |after| <= |ledger| + 1
      && (outcome.Appended? || outcome.Reused? ==>
            var newHead := Head(outcome.fact, d.signature);
            Unchanged(d, newHead) && Persist(after, d, again, againAt, Some(newHead), nextPk) == Reused(outcome.fact))
      && (outcome.RevisionCollision? ==> after == ledger)
      && !outcome.IdentityCollision?
  {
    UnchangedAppendsOnlyToRebind(ledger, d, first, firstAt, head, pk);
  }

  // ---------------------------------------------------------------------
  // The ledger refines the observation log
  // ---------------------------------------------------------------------

  /** One retrieval of one raw slot: when it was observed, the content-addressed
      asset it landed on, and what the slot normalised to. */
  datatype Observation = Observation(at: Instant, source: Asset, derivation: Derivation)

  datatype LineageError = UnboundFact | PersistRefused

  function Newest(facts: seq<Fact>): (f: Fact)
    requires facts != []
    ensures f in facts
    ensures forall g :: g in facts ==> g.revision <= f.revision
  {
    if |facts| == 1 then facts[0]
    else
      var last := facts[|facts| - 1];
      assert facts == facts[..|facts| - 1] + [last];
      var f := Newest(facts[..|facts| - 1]);
      if last.revision > f.revision then last else f
  }

  /** Normalised content, vintage clocks excluded (`_derivation_content_matches_fact`). */
  predicate ContentMatches(d: Derivation, f: Fact) {
    d.identity == f.identity && d.concept == f.concept && d.value == f.value && d.labels == f.labels
  }

  /** Raw signatures the history binds a persisted fact to. */
  function BoundSignatures(history: seq<Observation>, f: Fact): set<string> {
    set o | o in history && o.source.id == f.source.id && ContentMatches(o.derivation, f) :: o.derivation.signature
  }

  /** The predecessor `_latest_facts_by_raw_lineage` hands to the writer: the
      newest row of the slot, under the signature last observed before this
      retrieval unless this retrieval replays the one that persisted the row. */
  ghost function Predecessor(ledger: seq<Fact>, log: seq<Observation>,
                             o: Observation): Result<Option<Head>, LineageError> {
    if ledger == [] then Ok(None)
    else if exists f :: f in ledger && |BoundSignatures(log + [o], f)| != 1 then Err(UnboundFact)
    else
      var latest := Newest(ledger);
      var bound :| bound in BoundSignatures(log + [o], latest);
      var replays := && latest.source.id == o.source.id
                     && latest.availableAt == Max(o.derivation.acceptanceAt, o.at)
                     && latest.hash == Some(HashOf(o.derivation));
      Ok(Some(Head(latest, if replays || log == [] then bound else log[|log| - 1].derivation.signature)))
  }

  /** The slot's ledger after its whole log has been ingested in order. */
  ghost function Ingest(log: seq<Observation>): Result<seq<Fact>, LineageError> {
    if log == [] then Ok([])
    else
      var earlier := log[..|log| - 1];
      var o := log[|log| - 1];
      match Ingest(earlier)
      case Err(e) => Err(e)
      case Ok(ledger) =>
        match Predecessor(ledger, earlier, o)
        case Err(e) => Err(e)
        case Ok(head) =>
          var outcome := Persist(ledger, o.derivation, o.source, o.at, head, |ledger|);
          if outcome.Reused? || outcome.Appended? then Ok(LedgerAfter(ledger, outcome)) else Err(PersistRefused)
  }

  /** Retrieval instants increase, equal bytes give equal content, and equal raw
      content normalises equally under one fixed acceptance. */
  ghost predicate IsSlotLog(log: seq<Observation>, acceptance: Instant) {
    && (forall i, j :: 0 <= i < j < |log| ==> log[i].at < log[j].at)
    && (forall i, j :: 0 <= i < |log| && 0 <= j < |log| && log[i].source.id == log[j].source.id ==>
          log[i].derivation == log[j].derivation)
    && (forall i, j ::
         0 <= i < |log| && 0 <= j < |log| && log[i].derivation.signature == log[j].derivation.signature ==>
          log[i].derivation == log[j].derivation)
    && (forall i :: 0 <= i < |log| ==> log[i].derivation.acceptanceAt == acceptance)
  }

  function SignatureChanges(log: seq<Observation>): nat {
    if |log| <= 1 then 0
    else
      var n := |log| - 1;
      SignatureChanges(log[..n]) + if log[n].derivation.signature != log[n - 1].derivation.signature then 1 else 0
  }

  /** The observation in force at `cutoff`: the last one made by then, else the first. */
  function InForceAt(log: seq<Observation>, cutoff: Instant): Observation
    requires log != []
  {
    var n := |log| - 1;
    if n == 0 || log[n].at <= cutoff then log[n] else InForceAt(log[..n], cutoff)
  }

  /** The highest revision a reader at `cutoff` admits carries d. */
  ghost predicate Reads(ledger: seq<Fact>, cutoff: Instant, d: Derivation) {
    exists f :: f in AsOf(ledger, cutoff) && ContentMatches(d, f)
             && forall g :: g in AsOf(ledger, cutoff) ==> g.revision <= f.revision
  }

  ghost predicate FromLog(log: seq<Observation>, f: Fact) {
    exists k :: 0 <= k < |log| && log[k].source == f.source && ContentMatches(log[k].derivation, f)
             && f.hash == Some(HashOf(log[k].derivation))
  }

  /** f persists the content last observed, under the bytes of some retrieval of it. */
  ghost predicate IsCurrent(log: seq<Observation>, f: Fact)
    requires log != []
  {
    var last := log[|log| - 1].derivation;
    && ContentMatches(last, f) && f.hash == Some(HashOf(last))
    && exists k :: 0 <= k < |log| && log[k].source == f.source && log[k].derivation == last
  }

  ghost predicate RowsFromLog(log: seq<Observation>, ledger: seq<Fact>) {
    forall i :: 0 <= i < |ledger| ==> ledger[i].revision == i + 1 && FromLog(log, ledger[i])
  }

  ghost predicate BoundAvailability(acceptance: Instant, upTo: Instant, ledger: seq<Fact>) {
    && (forall i :: 0 <= i < |ledger| ==> acceptance <= ledger[i].availableAt <= Max(acceptance, upTo))
    && (forall i, j :: 0 <= i < j < |ledger| ==> ledger[i].availableAt <= ledger[j].availableAt)
    && (forall i :: 1 <= i < |ledger| ==> ledger[i].basis == SameAccessionCorrection)
    && (ledger != [] ==> ledger[0].availableAt == acceptance)
  }

  /** What every ingested prefix leaves behind. */
  ghost predicate SlotInvariant(log: seq<Observation>, acceptance: Instant, ledger: seq<Fact>)
    requires log != []
  {
    && |ledger| == 1 + SignatureChanges(log)
    && RowsFromLog(log, ledger)
    && BoundAvailability(acceptance, log[|log| - 1].at, ledger)
    && IsCurrent(log, ledger[|ledger| - 1])
  }

  lemma BoundByItsOwnObservation(log: seq<Observation>, acceptance: Instant, f: Fact)
    requires IsSlotLog(log, acceptance) && FromLog(log, f)
    ensures |BoundSignatures(log, f)| == 1
    ensures forall k :: 0 <= k < |log| && log[k].source.id == f.source.id ==>
      BoundSignatures(log, f) == {log[k].derivation.signature}
  {
    var k :| 0 <= k < |log| && log[k].source == f.source && ContentMatches(log[k].derivation, f);
    assert log[k] in log;
    assert BoundSignatures(log, f) == {log[k].derivation.signature};
  }

  lemma IngestFirst(log: seq<Observation>, acceptance: Instant)
    requires IsSlotLog(log, acceptance) && |log| == 1
    ensures Ingest(log).Ok? && SlotInvariant(log, acceptance, Ingest(log).value)
  {
    var o := log[0];
    assert log[..0] == [] && Ingest([]) == Ok([]);
    var head := Predecessor([], [], o);
    assert head.Ok? && head.value.None?;
    var outcome := Persist([], o.derivation, o.source, o.at, None, 0);
    assert outcome.Appended?;
    var ledger := Ingest(log);
    assert ledger.Ok? && ledger.value == [outcome.fact];
    assert FromLog(log, outcome.fact) by { assert log[0].source == outcome.fact.source; }
  }

  lemma PredecessorIsLast(log: seq<Observation>, acceptance: Instant, ledger: seq<Fact>, o: Observation)
    requires log != [] && IsSlotLog(log + [o], acceptance) && SlotInvariant(log, acceptance, ledger)
    ensures Predecessor(ledger, log, o) == Ok(Some(Head(ledger[|ledger| - 1], log[|log| - 1].derivation.signature)))
  {
    var n := |ledger| - 1;
    assert Newest(ledger) == ledger[n];
    forall f | f in ledger ensures |BoundSignatures(log + [o], f)| == 1 {
      var k :| 0 <= k < |log| && log[k].source == f.source && ContentMatches(log[k].derivation, f)
               && f.hash == Some(HashOf(log[k].derivation));
      assert (log + [o])[k] == log[k];
      BoundByItsOwnObservation(log + [o], acceptance, f);
    }
    var f := ledger[n];
    if f.source.id == o.source.id {
      var grown := log + [o];
      assert grown[|log|] == o;
      var k :| 0 <= k < |log| && log[k].source == f.source && log[k].derivation == log[|log| - 1].derivation;
      assert grown[k] == log[k];
      BoundByItsOwnObservation(grown, acceptance, f);
    }
  }

  lemma NothingIsTaken(log: seq<Observation>, acceptance: Instant, ledger: seq<Fact>, o: Observation)
    requires log != [] && IsSlotLog(log + [o], acceptance) && SlotInvariant(log, acceptance, ledger)
    ensures
      var head := Head(ledger[|ledger| - 1], log[|log| - 1].derivation.signature);
      var outcome := Persist(ledger, o.derivation, o.source, o.at, Some(head), |ledger|);
      if o.derivation.signature == head.signature then outcome == Reused(head.fact)
      else outcome == Appended(NewVintage(o.derivation, o.source, o.at, Some(head), |ledger|))
  {
    var n := |log| - 1;
    var grown := log + [o];
    assert grown[n] == log[n] && grown[|log|] == o;
  }

  lemma FromLongerLog(log: seq<Observation>, o: Observation, f: Fact)
    requires FromLog(log, f)
    ensures FromLog(log + [o], f)
  {
    var k :| 0 <= k < |log| && log[k].source == f.source && ContentMatches(log[k].derivation, f)
             && f.hash == Some(HashOf(log[k].derivation));
    assert (log + [o])[k] == log[k];
  }

  /** The slot's ledger after one more retrieval: unchanged, or one row longer. */
  ghost function NextSlotLedger(log: seq<Observation>, ledger: seq<Fact>, o: Observation): seq<Fact>
    requires log != [] && ledger != []
  {
    var head := Head(ledger[|ledger| - 1], log[|log| - 1].derivation.signature);
    if o.derivation.signature == head.signature then ledger
    else ledger + [NewVintage(o.derivation, o.source, o.at, Some(head), |ledger|)]
  }

  lemma IngestStep(log: seq<Observation>, o: Observation, ledger: seq<Fact>, head: Option<Head>)
    requires Ingest(log) == Ok(ledger) && Predecessor(ledger, log, o) == Ok(head)
    ensures
      var outcome := Persist(ledger, o.derivation, o.source, o.at, head, |ledger|);
      outcome.Reused? || outcome.Appended? ==> Ingest(log + [o]) == Ok(LedgerAfter(ledger, outcome))
  {
    var grown := log + [o];
    assert grown[..|grown| - 1] == log && grown[|grown| - 1] == o;
  }

  lemma IngestUnfolds(log: seq<Observation>, acceptance: Instant, o: Observation)
    requires log != [] && IsSlotLog(log + [o], acceptance)
    requires Ingest(log).Ok? && SlotInvariant(log, acceptance, Ingest(log).value)
    ensures Ingest(log + [o]) == Ok(NextSlotLedger(log, Ingest(log).value, o))
  {
    var ledger := Ingest(log).value;
    PredecessorIsLast(log, acceptance, ledger, o);
    NothingIsTaken(log, acceptance, ledger, o);
    IngestStep(log, o, ledger, Some(Head(ledger[|ledger| - 1], log[|log| - 1].derivation.signature)));
  }

  lemma RowsStayFromLog(log: seq<Observation>, o: Observation, ledger: seq<Fact>)
    requires RowsFromLog(log, ledger)
    ensures RowsFromLog(log + [o], ledger)
  {
    forall i | 0 <= i < |ledger| ensures FromLog(log + [o], ledger[i]) {
      FromLongerLog(log, o, ledger[i]);
    }
  }

  lemma ReuseKeepsInvariant(log: seq<Observation>, acceptance: Instant, ledger: seq<Fact>, o: Observation)
    requires log != [] && SlotInvariant(log, acceptance, ledger)
    requires o.at > log[|log| - 1].at && o.derivation == log[|log| - 1].derivation
    ensures SlotInvariant(log + [o], acceptance, ledger)
  {
    var grown := log + [o];
    var n := |log|;
    assert grown[..n] == log && grown[n] == o && grown[n - 1] == log[n - 1];
    RowsStayFromLog(log, o, ledger);
    var last := ledger[|ledger| - 1];
    var k :| 0 <= k < n && log[k].source == last.source && log[k].derivation == log[n - 1].derivation;
    assert grown[k] == log[k];
    assert IsCurrent(grown, last);
  }

  lemma VintageIsCurrent(log: seq<Observation>, o: Observation, vintage: Fact)
    requires vintage.source == o.source && ContentMatches(o.derivation, vintage)
      && vintage.hash == Some(HashOf(o.derivation))
    ensures FromLog(log + [o], vintage) && IsCurrent(log + [o], vintage)
  {
    var grown := log + [o];
    assert grown[|log|] == o && grown[|log|].source == vintage.source;
  }

  lemma AppendKeepsInvariant(log: seq<Observation>, acceptance: Instant, ledger: seq<Fact>, o: Observation,
                             vintage: Fact)
    requires log != [] && SlotInvariant(log, acceptance, ledger)
    requires o.at > log[|log| - 1].at && o.derivation.signature != log[|log| - 1].derivation.signature
    requires vintage.source == o.source && ContentMatches(o.derivation, vintage)
      && vintage.hash == Some(HashOf(o.derivation))
    requires vintage.revision == |ledger| + 1 && vintage.basis == SameAccessionCorrection
    requires vintage.availableAt == Max(acceptance, o.at)
    ensures SlotInvariant(log + [o], acceptance, ledger + [vintage])
  {
    var grown := log + [o];
    var n := |log|;
    assert grown[..n] == log && grown[n] == o && grown[n - 1] == log[n - 1];
    VintageIsCurrent(log, o, vintage);
    RowsExtend(log, o, ledger, vintage);
    AvailabilityExtends(acceptance, log[n - 1].at, o.at, ledger, vintage);
  }

  lemma RowsExtend(log: seq<Observation>, o: Observation, ledger: seq<Fact>, vintage: Fact)
    requires RowsFromLog(log, ledger) && FromLog(log + [o], vintage) && vintage.revision == |ledger| + 1
    ensures RowsFromLog(log + [o], ledger + [vintage])
  {
    RowsStayFromLog(log, o, ledger);
  }

  lemma AvailabilityExtends(acceptance: Instant, upTo: Instant, at: Instant, ledger: seq<Fact>, vintage: Fact)
    requires BoundAvailability(acceptance, upTo, ledger) && ledger != [] && upTo <= at
    requires vintage.availableAt == Max(acceptance, at) && vintage.basis == SameAccessionCorrection
    ensures BoundAvailability(acceptance, at, ledger + [vintage])
  {
  }

  lemma InvariantStep(log: seq<Observation>, acceptance: Instant, ledger: seq<Fact>, o: Observation)
    requires log != [] && IsSlotLog(log + [o], acceptance)
    requires SlotInvariant(log, acceptance, ledger)
    ensures SlotInvariant(log + [o], acceptance, NextSlotLedger(log, ledger, o))
  {
    var grown := log + [o];
    var n := |log|;
    var last := ledger[|ledger| - 1];
    assert grown[n] == o && grown[n - 1] == log[n - 1];
    if o.derivation.signature == log[n - 1].derivation.signature {
      ReuseKeepsInvariant(log, acceptance, ledger, o);
    } else {
      var head := Head(last, log[n - 1].derivation.signature);
      AppendKeepsInvariant(log, acceptance, ledger, o, NewVintage(o.derivation, o.source, o.at, Some(head), |ledger|));
    }
  }

  lemma SlotLogPrefix(log: seq<Observation>, acceptance: Instant)
    requires log != [] && IsSlotLog(log, acceptance)
    ensures IsSlotLog(log[..|log| - 1], acceptance)
    ensures log == log[..|log| - 1] + [log[|log| - 1]]
  {
  }

  lemma {:induction false} IngestKeepsInvariant(log: seq<Observation>, acceptance: Instant)
    requires log != [] && IsSlotLog(log, acceptance)
    ensures Ingest(log).Ok? && SlotInvariant(log, acceptance, Ingest(log).value)
  {
    var n := |log| - 1;
    if n == 0 {
      IngestFirst(log, acceptance);
    } else {
      SlotLogPrefix(log, acceptance);
      IngestKeepsInvariant(log[..n], acceptance);
      IngestUnfolds(log[..n], acceptance, log[n]);
      InvariantStep(log[..n], acceptance, Ingest(log[..n]).value, log[n]);
    }
  }

  /** Ingested rows are proven from their recorded availability on, so a reader
      sees exactly the rows whose availability has arrived. */
  lemma IngestedRowsAreVisible(log: seq<Observation>, acceptance: Instant, ledger: seq<Fact>, cutoff: Instant)
    requires log != [] && SlotInvariant(log, acceptance, ledger)
    ensures forall f :: f in AsOf(ledger, cutoff) <==> f in ledger && f.availableAt <= cutoff
  {
    var visible := VisibleAt(ledger, cutoff);
    forall f | f in visible ensures ProvenAt(visible, f) == Some(f.availableAt) {
      var i :| 0 <= i < |ledger| && ledger[i] == f;
    }
  }

  lemma LaterRetrievalIsInvisible(log: seq<Observation>, acceptance: Instant, ledger: seq<Fact>, o: Observation,
                                  cutoff: Instant)
    requires log != [] && IsSlotLog(log + [o], acceptance) && SlotInvariant(log, acceptance, ledger)
    requires o.at > cutoff
    ensures forall f :: f in AsOf(NextSlotLedger(log, ledger, o), cutoff) <==> f in AsOf(ledger, cutoff)
  {
    var after := NextSlotLedger(log, ledger, o);
    InvariantStep(log, acceptance, ledger, o);
    IngestedRowsAreVisible(log, acceptance, ledger, cutoff);
    IngestedRowsAreVisible(log + [o], acceptance, after, cutoff);
  }

  lemma CurrentRowIsRead(log: seq<Observation>, acceptance: Instant, ledger: seq<Fact>, cutoff: Instant)
    requires log != [] && SlotInvariant(log, acceptance, ledger) && cutoff >= acceptance
    requires log[|log| - 1].at <= cutoff || |log| == 1
    ensures Reads(ledger, cutoff, log[|log| - 1].derivation)
  {
    IngestedRowsAreVisible(log, acceptance, ledger, cutoff);
    var top := ledger[|ledger| - 1];
    assert top in AsOf(ledger, cutoff);
  }

  lemma ReadsByMembership(a: seq<Fact>, b: seq<Fact>, cutoff: Instant, d: Derivation)
    requires forall f :: f in AsOf(a, cutoff) <==> f in AsOf(b, cutoff)
    requires Reads(a, cutoff, d)
    ensures Reads(b, cutoff, d)
  {
  }

  lemma {:induction false} PastReadersSeeTheLog(log: seq<Observation>, acceptance: Instant, cutoff: Instant)
    requires log != [] && IsSlotLog(log, acceptance) && cutoff >= acceptance
    ensures Ingest(log).Ok? && Reads(Ingest(log).value, cutoff, InForceAt(log, cutoff).derivation)
  {
    IngestKeepsInvariant(log, acceptance);
    var n := |log| - 1;
    if log[n].at <= cutoff || n == 0 {
      CurrentRowIsRead(log, acceptance, Ingest(log).value, cutoff);
    } else {
      var earlier := log[..n];
      SlotLogPrefix(log, acceptance);
      PastReadersSeeTheLog(earlier, acceptance, cutoff);
      IngestKeepsInvariant(earlier, acceptance);
      LaterRetrievalKeepsReading(earlier, acceptance, log[n], cutoff, InForceAt(earlier, cutoff).derivation);
    }
  }

  lemma LaterRetrievalKeepsReading(log: seq<Observation>, acceptance: Instant, o: Observation, cutoff: Instant,
                                   d: Derivation)
    requires log != [] && IsSlotLog(log + [o], acceptance) && o.at > cutoff
    requires Ingest(log).Ok? && SlotInvariant(log, acceptance, Ingest(log).value) && Reads(Ingest(log).value, cutoff, d)
    ensures Ingest(log + [o]).Ok? && Reads(Ingest(log + [o]).value, cutoff, d)
  {
    var ledger := Ingest(log).value;
    IngestUnfolds(log, acceptance, o);
    LaterRetrievalIsInvisible(log, acceptance, ledger, o, cutoff);
    ReadsByMembership(ledger, NextSlotLedger(log, ledger, o), cutoff, d);
  }

  /** Every past reader sees what the log had shown by then: at any cutoff from
      acceptance on, the highest admitted revision carries the content last
      observed by that cutoff, or the first content when nothing had been
      observed yet. Reversions and moves between identity chains included. */
  lemma LedgerRefinesObservationLog(log: seq<Observation>, acceptance: Instant, cutoff: Instant)
    requires log != [] && IsSlotLog(log, acceptance) && cutoff >= acceptance
    ensures Ingest(log).Ok?
    ensures |Ingest(log).value| == 1 + SignatureChanges(log)
    ensures forall i :: 0 <= i < |Ingest(log).value| ==> Ingest(log).value[i].revision == i + 1
    ensures Reads(Ingest(log).value, cutoff, InForceAt(log, cutoff).derivation)
  {
    IngestKeepsInvariant(log, acceptance);
    PastReadersSeeTheLog(log, acceptance, cutoff);
  }

  /** An ingested slot meets the hypothesis under which the availability query
      may run before resolution. */
  lemma IngestedAvailabilityIsMonotone(log: seq<Observation>, acceptance: Instant)
    requires log != [] && IsSlotLog(log, acceptance)
    ensures Ingest(log).Ok? && MonotoneAvailability(Ingest(log).value)
  {
    IngestKeepsInvariant(log, acceptance);
    var ledger := Ingest(log).value;
    forall f, g | f in ledger && g in ledger && Earlier(g, f) ensures g.availableAt <= f.availableAt {
      var i :| 0 <= i < |ledger| && ledger[i] == f;
      var j :| 0 <= j < |ledger| && ledger[j] == g;
      assert j < i;
    }
  }
}
