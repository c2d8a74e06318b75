/** The evidence an SEC ingestion run stores and cites, company by company
    (sec_ingestion.py), and its acceptance by the stage verifier. */
module SecIngestion {
  import opened Wrappers
  import opened Sorting
  import opened IntegerSets
  import opened SecClosure

  /** What the provider answers and what the verification state says. None from
      a fetch is the provider error that ends the run. */
  datatype World = World(
    mapping: Option<Sha>,
    submissions: Cik -> Option<Sha>,
    history: (Cik, Filename) -> Option<Sha>,
    facts: Cik -> Option<Sha>,
    at: (Kind, Cik) -> Instant,
    reconciliationDue: Cik -> bool,
    retryDue: Cik -> bool,
    normalized: Cik -> bool,
    observedFacts: Cik -> Option<nat>)

  datatype Failure = ProviderFailure | MalformedSubmissions | Inconsistent

  /** The recovered companyfacts observation is a stored asset of the company. */
  ghost predicate Observes(world: World, table: Table) {
    forall cik :: world.observedFacts(cik).Some? ==>
      var id := world.observedFacts(cik).value;
      id < |table| && table[id].kind == CompanyFacts && table[id].subject == cik
  }

  predicate Matches(asset: Asset, kind: Kind, subject: Cik, sha: Sha, filename: Option<Filename>) {
    && asset.kind == kind && asset.subject == subject && asset.sha == sha
    && (filename.Some? ==> asset.filename == filename)
  }

  predicate NamedHistory(asset: Asset, cik: Cik, filename: Filename) {
    asset.kind == History && asset.subject == cik && asset.filename == Some(filename)
  }

  /** Of the first `n` stored assets, the newest that the lookup matches. */
  ghost predicate NewestMatch(table: Table, n: nat, kind: Kind, subject: Cik, sha: Sha, filename: Option<Filename>,
                              found: Option<Asset>)
    requires n <= |table|
  {
    match found
    case None => forall i :: 0 <= i < n ==> !Matches(table[i], kind, subject, sha, filename)
    case Some(a) =>
      && Stored(table, a) && Matches(a, kind, subject, sha, filename)
      && forall i :: 0 <= i < n && Matches(table[i], kind, subject, sha, filename) ==>
           table[i].retrievedAt <= a.retrievedAt
  }

  ghost predicate NewestHistory(table: Table, n: nat, cik: Cik, filename: Filename, found: Option<Asset>)
    requires n <= |table|
  {
    match found
    case None => forall i :: 0 <= i < n ==> !NamedHistory(table[i], cik, filename)
    case Some(a) =>
      && Stored(table, a) && NamedHistory(a, cik, filename)
      && forall i :: 0 <= i < n && NamedHistory(table[i], cik, filename) ==> table[i].retrievedAt <= a.retrievedAt
  }

  lemma HoldsMeansMatches(table: Table, kind: Kind, subject: Cik, sha: Sha, filename: Option<Filename>)
    ensures Holds(table, kind, subject, sha, filename) <==>
      exists i :: 0 <= i < |table| && Matches(table[i], kind, subject, sha, filename)
  {
    if Holds(table, kind, subject, sha, filename) {
      var i :| 0 <= i < |table| && table[i].kind == kind && table[i].subject == subject && table[i].sha == sha
        && (filename.None? || table[i].filename == filename);
      assert Matches(table[i], kind, subject, sha, filename);
    }
    if i :| 0 <= i < |table| && Matches(table[i], kind, subject, sha, filename) {
      assert table[i].kind == kind;
    }
  }

  predicate NameHeld(table: Table, cik: Cik, name: Filename, held: Option<Asset>) {
    held.Some? ==> Stored(table, held.value) && NamedHistory(held.value, cik, name)
  }

  ghost predicate AllHeld(table: Table, cik: Cik, names: seq<Filename>, held: map<Filename, Option<Asset>>) {
    forall n :: n in names ==> n in held && NameHeld(table, cik, n, held[n])
  }

  lemma HeldLonger(table: Table, later: Table, cik: Cik, names: seq<Filename>, held: map<Filename, Option<Asset>>)
    requires AllHeld(table, cik, names, held) && table <= later
    ensures AllHeld(later, cik, names, held)
  {
  }

  ghost predicate CompanyStored(table: Table, c: Company) {
    forall a :: a in c.Assets() ==> Stored(table, a)
  }

  lemma FittingParts(table: Table, submissions: Asset, history: seq<Asset>, facts: Asset, cik: Cik, files: Listing)
    requires Stored(table, submissions) && submissions.kind == Submissions && submissions.subject == cik
    requires Stored(table, facts) && facts.kind == CompanyFacts && facts.subject == cik
    requires files(submissions.sha).Some?
    requires var names := SortedNames(files(submissions.sha).value);
      |history| == |names| && forall i :: 0 <= i < |names| ==>
        Stored(table, history[i]) && NamedHistory(history[i], cik, names[i])
    ensures CompanyFits(Company(submissions, history, facts), cik, files)
    ensures CompanyStored(table, Company(submissions, history, facts))
  {
  }

  /** A valid table whose assets were all retrieved by `bound`. */
  ghost predicate Sound(table: Table, bound: Instant) {
    ValidTable(table) && forall i :: 0 <= i < |table| ==> table[i].retrievedAt <= bound
  }

  ghost predicate Timely(world: World, bound: Instant) {
    forall kind, cik :: world.at(kind, cik) <= bound
  }

  datatype SecConfig = SecConfig(pinned: Sha, mappings: seq<(Symbol, Cik)>, excluded: set<Symbol>,
    universe: set<Symbol>)

  /** What the loader of the reviewed CIK configuration enforces. */
  ghost predicate Reviewed(config: SecConfig) {
    && Distinct(CiksOf(config.mappings))
    && forall m :: m in config.mappings ==> m.0 !in config.excluded
  }

  function CiksOf(mappings: seq<(Symbol, Cik)>): (ciks: seq<Cik>)
    ensures |ciks| == |mappings|
    ensures forall i :: 0 <= i < |ciks| ==> ciks[i] == mappings[i].1
  {
    seq(|mappings|, i requires 0 <= i < |mappings| => mappings[i].1)
  }

  // ---------------------------------------------------------------------
  // What a company's evidence is, fetch by fetch
  // ---------------------------------------------------------------------

  /** The table holds these bytes for the kind and subject, and under the filename if one is asked for. */
  predicate Holds(table: Table, kind: Kind, subject: Cik, sha: Sha, filename: Option<Filename>) {
    exists i :: 0 <= i < |table| && table[i].kind == kind && table[i].subject == subject && table[i].sha == sha
                && (filename.None? || table[i].filename == filename)
  }

  /** No other asset of the same kind, subject and bytes was retrieved after a. */
  predicate NoneNewer(table: Table, a: Asset, filename: Option<Filename>) {
    forall i :: 0 <= i < |table| && table[i].kind == a.kind && table[i].subject == a.subject && table[i].sha == a.sha
                && (filename.None? || table[i].filename == filename)
      ==> table[i].retrievedAt <= a.retrievedAt
  }

  predicate HasHistory(table: Table, cik: Cik, name: Filename) {
    exists i :: 0 <= i < |table| && table[i].kind == History && table[i].subject == cik
                && table[i].filename == Some(name)
  }

  /** The newest stored history file of that name. */
  ghost predicate IsNewestHistory(table: Table, cik: Cik, name: Filename, a: Asset) {
    && a.id < |table| && table[a.id] == a
    && a.kind == History && a.subject == cik && a.filename == Some(name)
    && forall i :: 0 <= i < |table| && table[i].kind == History && table[i].subject == cik
                   && table[i].filename == Some(name)
         ==> table[i].retrievedAt <= a.retrievedAt
  }

  /** Company facts are fetched when none were observed, when the submissions are
      new bytes, and when a reconciliation or a retry is due. */
  predicate FactsDue(world: World, was: Table, cik: Cik, submissions: Sha) {
    || world.observedFacts(cik).None? || !Holds(was, Submissions, cik, submissions, None)
    || world.reconciliationDue(cik) || world.retryDue(cik)
  }

  /** History files are gone through when facts are, or when the last normalization
      does not cover the files already stored. */
  ghost predicate NormalizationDue(world: World, was: Table, cik: Cik, submissions: Sha, names: seq<Filename>) {
    || FactsDue(world, was, cik, submissions) || !world.normalized(cik)
    || exists n :: n in names && !HasHistory(was, cik, n)
  }

  /** A listed file is fetched when it is gone through and is missing, or a reconciliation is due. */
  ghost predicate FileDue(world: World, was: Table, cik: Cik, submissions: Sha, names: seq<Filename>, n: Filename) {
    NormalizationDue(world, was, cik, submissions, names) && (!HasHistory(was, cik, n) || world.reconciliationDue(cik))
  }

  /** What the company cites: the bytes of every fetch that was due, and the newest
      stored ones of everything else. */
  ghost predicate Cites(world: World, was: Table, cik: Cik, files: Listing, c: Company) {
    && world.submissions(cik) == Some(c.submissions.sha) && files(c.submissions.sha).Some?
    && CitesRest(world, was, cik, files(c.submissions.sha).value, c)
  }

  ghost predicate CitesRest(world: World, was: Table, cik: Cik, names: seq<Filename>, c: Company) {
    && (if FactsDue(world, was, cik, c.submissions.sha) then world.facts(cik) == Some(c.facts.sha)
        else world.observedFacts(cik).value < |was| && c.facts == was[world.observedFacts(cik).value])
    && forall i :: 0 <= i < |c.history| ==>
         CitesFile(world, was, cik, c.submissions.sha, names, c.history[i])
  }

  ghost predicate CitesFile(world: World, was: Table, cik: Cik, submissions: Sha, names: seq<Filename>, a: Asset) {
    && a.filename.Some?
    && if FileDue(world, was, cik, submissions, names, a.filename.value)
       then world.history(cik, a.filename.value) == Some(a.sha)
       else IsNewestHistory(was, cik, a.filename.value, a)
  }

  /** Whatever was stored before, a run cites the submissions it fetched, and a
      company whose reconciliation is due only what it fetched. */
  ghost predicate CitesFresh(world: World, cik: Cik, c: Company) {
    && world.submissions(cik) == Some(c.submissions.sha)
    && (world.observedFacts(cik).None? || world.reconciliationDue(cik) || world.retryDue(cik) ==>
          world.facts(cik) == Some(c.facts.sha))
    && (world.reconciliationDue(cik) ==>
          forall i :: 0 <= i < |c.history| ==>
            c.history[i].filename.Some?
            && world.history(cik, c.history[i].filename.value) == Some(c.history[i].sha))
  }

  lemma CitedIsFresh(world: World, was: Table, cik: Cik, files: Listing, c: Company)
    requires Cites(world, was, cik, files, c)
    ensures CitesFresh(world, cik, c)
  {
    if world.reconciliationDue(cik) {
      forall i | 0 <= i < |c.history|
        ensures c.history[i].filename.Some?
             && world.history(cik, c.history[i].filename.value) == Some(c.history[i].sha)
      {
        assert CitesFile(world, was, cik, c.submissions.sha, files(c.submissions.sha).value, c.history[i]);
      }
    }
  }

  /** A listed file that had to be fetched could not be. */
  ghost predicate FileFails(world: World, was: Table, cik: Cik, names: seq<Filename>, normalize: bool) {
    && normalize
    && exists n :: n in names && world.history(cik, n).None?
                   && (!HasHistory(was, cik, n) || world.reconciliationDue(cik))
  }

  ghost predicate RestFails(world: World, was: Table, cik: Cik, submissions: Sha, names: seq<Filename>) {
    || (FactsDue(world, was, cik, submissions) && world.facts(cik).None?)
    || FileFails(world, was, cik, names, NormalizationDue(world, was, cik, submissions, names))
  }

  /** A fetch of the company that was due and failed. */
  ghost predicate FetchFails(world: World, was: Table, cik: Cik, files: Listing) {
    || world.submissions(cik).None?
    || (var sha := world.submissions(cik).value;
        files(sha).Some? && RestFails(world, was, cik, sha, files(sha).value))
  }

  /** A newly stored asset is one of the company's fetches, stamped with its retrieval. */
  predicate FetchedOf(world: World, cik: Cik, a: Asset) {
    && a.subject == cik && a.availableAt == a.retrievedAt == world.at(a.kind, cik)
    && match a.kind
       case Submissions => world.submissions(cik) == Some(a.sha)
       case History => a.filename.Some? && world.history(cik, a.filename.value) == Some(a.sha)
       case CompanyFacts => world.facts(cik) == Some(a.sha)
       case _ => false
  }

  ghost predicate GrowsByFetches(world: World, cik: Cik, was: Table, table: Table) {
    was <= table && forall i :: |was| <= i < |table| ==> FetchedOf(world, cik, table[i])
  }

  lemma GrowsTwice(world: World, cik: Cik, was: Table, middle: Table, table: Table)
    requires GrowsByFetches(world, cik, was, middle) && GrowsByFetches(world, cik, middle, table)
    ensures GrowsByFetches(world, cik, was, table)
  {
  }

  /** No history file is among the assets added. */
  ghost predicate SameHistory(was: Table, table: Table) {
    was <= table && forall i :: |was| <= i < |table| ==> table[i].kind != History
  }

  lemma SameNewest(was: Table, table: Table, cik: Cik, name: Filename, found: Option<Asset>)
    requires ValidTable(table) && SameHistory(was, table) && NewestHistory(table, |table|, cik, name, found)
    ensures found.Some? <==> HasHistory(was, cik, name)
    ensures found.Some? ==> IsNewestHistory(was, cik, name, found.value)
  {
    if i :| 0 <= i < |was| && was[i].kind == History && was[i].subject == cik && was[i].filename == Some(name) {
      assert NamedHistory(table[i], cik, name);
    }
    if found.Some? {
      assert found.value.id < |was|;
      forall i | 0 <= i < |was| && was[i].kind == History && was[i].subject == cik && was[i].filename == Some(name)
        ensures was[i].retrievedAt <= found.value.retrievedAt
      {
        assert NamedHistory(table[i], cik, name);
      }
    }
  }

  /** The files found before anything is fetched. */
  ghost predicate HeldBefore(was: Table, cik: Cik, names: seq<Filename>, held: map<Filename, Option<Asset>>) {
    forall n :: n in names ==>
      && n in held && (held[n].Some? <==> HasHistory(was, cik, n))
      && (held[n].Some? ==> IsNewestHistory(was, cik, n, held[n].value))
  }

  /** What the history loop resolves a listed file to. */
  ghost predicate FileResolved(world: World, was: Table, cik: Cik, n: Filename, fetch: bool, a: Asset) {
    && a.filename == Some(n)
    && if fetch then world.history(cik, n) == Some(a.sha) else IsNewestHistory(was, cik, n, a)
  }

  ghost predicate FilesResolved(world: World, was: Table, cik: Cik, names: seq<Filename>, normalize: bool,
                                used: map<Filename, Option<Asset>>) {
    forall n :: n in names ==>
      && n in used && used[n].Some?
      && FileResolved(world, was, cik, n,
                      normalize && (!HasHistory(was, cik, n) || world.reconciliationDue(cik)), used[n].value)
  }

  lemma UsedAreCited(world: World, was: Table, cik: Cik, submissions: Sha, names: seq<Filename>, normalize: bool,
                     used: map<Filename, Option<Asset>>, history: seq<Asset>)
    requires normalize == NormalizationDue(world, was, cik, submissions, names)
    requires FilesResolved(world, was, cik, names, normalize, used)
    requires |history| == |SortedNames(names)| && forall i :: 0 <= i < |history| ==>
      SortedNames(names)[i] in used && used[SortedNames(names)[i]] == Some(history[i])
    ensures forall i :: 0 <= i < |history| ==> CitesFile(world, was, cik, submissions, names, history[i])
  {
    SortedNamesMembers(names);
    forall i | 0 <= i < |history| ensures CitesFile(world, was, cik, submissions, names, history[i]) {
      var n := SortedNames(names)[i];
      assert n in SortedNames(names) && n in names;
    }
  }

  class AssetStore {
    var table: Table

    constructor (table: Table)
      ensures this.table == table
    {
      this.table := table;
    }

    /** The newest stored asset that satisfies `_persist_payload`'s lookup. */
    method FindStored(kind: Kind, subject: Cik, sha: Sha, filename: Option<Filename>) returns (found: Option<Asset>)
      requires ValidTable(table)
      ensures NewestMatch(table, |table|, kind, subject, sha, filename, found)
    {
      found := None;
      var i: nat := 0;
      while i < |table|
        invariant 0 <= i <= |table|
        invariant NewestMatch(table, i, kind, subject, sha, filename, found)
      {
        if Matches(table[i], kind, subject, sha, filename)
           && (found.None? || table[i].retrievedAt > found.value.retrievedAt) {
          found := Some(table[i]);
        }
        i := i + 1;
      }
    }

    /** `_persist_payload`: reuse by content, and by filename for history files. */
    method PersistPayload(kind: Kind, subject: Cik, sha: Sha, filename: Option<Filename>, at: Instant,
                          ghost bound: Instant)
      returns (asset: Asset, created: bool)
      requires Sound(table, bound) && at <= bound
      modifies this
      ensures Sound(table, bound)
      ensures Stored(table, asset) && Matches(asset, kind, subject, sha, filename)
      ensures created <==> forall i :: 0 <= i < |old(table)| ==> !Matches(old(table)[i], kind, subject, sha, filename)
      ensures table == if created then old(table) + [asset] else old(table)
      ensures created <==> !Holds(old(table), kind, subject, sha, filename)
      ensures asset.kind == kind && asset.subject == subject && asset.sha == sha
      ensures filename.Some? ==> asset.filename == filename
      ensures created ==> asset.filename == filename && asset.availableAt == asset.retrievedAt == at
      ensures !created ==> NoneNewer(table, asset, filename)
    {
      HoldsMeansMatches(table, kind, subject, sha, filename);
      var existing := FindStored(kind, subject, sha, filename);
      if existing.Some? {
        return existing.value, false;
      }
      asset := Asset(|table|, kind, subject, sha, filename, at, at);
      table := table + [asset];
      created := true;
    }

    /** `_latest_history_asset`. */
    method LatestHistoryAsset(cik: Cik, filename: Filename) returns (found: Option<Asset>)
      requires ValidTable(table)
      ensures NewestHistory(table, |table|, cik, filename, found)
    {
      found := None;
      var i: nat := 0;
      while i < |table|
        invariant 0 <= i <= |table|
        invariant NewestHistory(table, i, cik, filename, found)
      {
        if NamedHistory(table[i], cik, filename) && (found.None? || table[i].retrievedAt > found.value.retrievedAt) {
          found := Some(table[i]);
        }
        i := i + 1;
      }
    }

    /** The history assets already stored for the listed filenames. */
    method KnownHistory(cik: Cik, names: seq<Filename>, ghost was: Table)
      returns (held: map<Filename, Option<Asset>>, complete: bool)
      requires ValidTable(table) && SameHistory(was, table)
      ensures AllHeld(table, cik, names, held) && HeldBefore(was, cik, names, held)
      ensures complete <==> forall n :: n in names ==> HasHistory(was, cik, n)
    {
      held := map[];
      var i := 0;
      while i < |names|
        invariant 0 <= i <= |names|
        invariant AllHeld(table, cik, names[..i], held) && HeldBefore(was, cik, names[..i], held)
      {
        var asset := LatestHistoryAsset(cik, names[i]);
        SameNewest(was, table, cik, names[i], asset);
        assert names[..i + 1] == names[..i] + [names[i]];
        held := held[names[i] := asset];
        i := i + 1;
      }
      assert names[..|names|] == names;
      complete := forall n :: n in names ==> held[n].Some?;
    }

    /** The normalization loop: known files are reused unless reconciliation is due. */
    method ResolveHistory(cik: Cik, names: seq<Filename>, held: map<Filename, Option<Asset>>, world: World,
                          ghost was: Table, ghost bound: Instant)
      returns (resolved: Result<map<Filename, Option<Asset>>, Failure>)
      requires Sound(table, bound) && Timely(world, bound) && AllHeld(table, cik, names, held)
      requires HeldBefore(was, cik, names, held)
      modifies this
      ensures Sound(table, bound) && GrowsByFetches(world, cik, old(table), table)
      ensures resolved.Err? ==> resolved.error == ProviderFailure
      ensures resolved.Err? <==> FileFails(world, was, cik, names, true)
      ensures resolved.Ok? ==> FilesResolved(world, was, cik, names, true, resolved.value)
      ensures resolved.Ok? ==> AllHeld(table, cik, names, resolved.value) && forall n :: n in names ==>
        resolved.value[n].Some?
    {
      var done: map<Filename, Option<Asset>> := map[];
      var i := 0;
      while i < |names|
        invariant 0 <= i <= |names|
        invariant Sound(table, bound) && GrowsByFetches(world, cik, old(table), table)
        invariant AllHeld(table, cik, names[..i], done) && forall n :: n in names[..i] ==> done[n].Some?
        invariant FilesResolved(world, was, cik, names[..i], true, done)
        invariant forall n :: n in names[..i] ==>
          world.history(cik, n).Some? || !(!HasHistory(was, cik, n) || world.reconciliationDue(cik))
      {
        var name := names[i];
        assert name in names;
        ghost var before := table;
        var asset: Asset;
        if held[name].None? || world.reconciliationDue(cik) {
          var sha := world.history(cik, name);
          if sha.None? {
            return Err(ProviderFailure);
          }
          var created;
          asset, created := PersistPayload(History, cik, sha.value, Some(name), world.at(History, cik), bound);
        } else {
          asset := held[name].value;
        }
        HeldLonger(before, table, cik, names[..i], done);
        done := done[name := Some(asset)];
        assert names[..i + 1] == names[..i] + [name];
        i := i + 1;
      }
      assert names[..|names|] == names;
      return Ok(done);
    }

    /** The used history assets, in filename order. */
    method UsedHistory(cik: Cik, names: seq<Filename>, held: map<Filename, Option<Asset>>)
      returns (used: Option<seq<Asset>>)
      requires AllHeld(table, cik, names, held)
      ensures used.None? <==> exists n :: n in names && held[n].None?
      ensures used.Some? ==>
        && |used.value| == |SortedNames(names)|
        && forall i :: 0 <= i < |used.value| ==>
             && Stored(table, used.value[i]) && NamedHistory(used.value[i], cik, SortedNames(names)[i])
             && SortedNames(names)[i] in held && held[SortedNames(names)[i]] == Some(used.value[i])
    {
      var sorted := SortedNames(names);
      SortedNamesMembers(names);
      var assets: seq<Asset> := [];
      var i := 0;
      while i < |sorted|
        invariant 0 <= i == |assets| <= |sorted|
        invariant forall k :: 0 <= k < i ==> sorted[k] in held && held[sorted[k]].Some?
        invariant forall k :: 0 <= k < i ==> Stored(table, assets[k]) && NamedHistory(assets[k], cik, sorted[k])
        invariant forall k :: 0 <= k < i ==> held[sorted[k]] == Some(assets[k])
      {
        assert sorted[i] in sorted;
        var asset := held[sorted[i]];
        if asset.None? {
          return None;
        }
        assets := assets + [asset.value];
        i := i + 1;
      }
      return Some(assets);
    }

    /** Normalising consults resolved files; the no-op path the known ones. */
    method HistoryFor(cik: Cik, names: seq<Filename>, held: map<Filename, Option<Asset>>, normalize: bool,
                      world: World, ghost was: Table, ghost bound: Instant)
      returns (used: Result<map<Filename, Option<Asset>>, Failure>)
      requires Sound(table, bound) && Timely(world, bound) && AllHeld(table, cik, names, held)
      requires HeldBefore(was, cik, names, held)
      requires !normalize ==> forall n :: n in names ==> held[n].Some?
      modifies this
      ensures Sound(table, bound) && GrowsByFetches(world, cik, old(table), table)
      ensures used.Err? ==> used.error == ProviderFailure
      ensures used.Err? <==> FileFails(world, was, cik, names, normalize)
      ensures used.Ok? ==> FilesResolved(world, was, cik, names, normalize, used.value)
      ensures used.Ok? ==> AllHeld(table, cik, names, used.value) && forall n :: n in names ==> used.value[n].Some?
    {
      if !normalize {
        return Ok(held);
      }
      used := ResolveHistory(cik, names, held, world, was, bound);
    }

    /** The companyfacts asset of the run: fetched, or the observed one. */
    method FactsFor(cik: Cik, latest: Option<Asset>, fetch: bool, world: World, ghost bound: Instant)
      returns (facts: Result<Asset, Failure>)
      requires Sound(table, bound) && Timely(world, bound)
      requires fetch || latest.Some?
      requires latest.Some? ==>
        Stored(table, latest.value) && latest.value.kind == CompanyFacts && latest.value.subject == cik
      modifies this
      ensures Sound(table, bound) && GrowsByFetches(world, cik, old(table), table)
      ensures facts.Err? ==> facts.error == ProviderFailure
      ensures facts.Err? <==> fetch && world.facts(cik).None?
      ensures facts.Ok? ==> Stored(table, facts.value) && facts.value.kind == CompanyFacts && facts.value.subject == cik
      ensures facts.Ok? ==>
        if fetch then world.facts(cik) == Some(facts.value.sha) else latest == Some(facts.value)
    {
      if !fetch {
        return Ok(latest.value);
      }
      var sha := world.facts(cik);
      if sha.None? {
        return Err(ProviderFailure);
      }
      var asset, created := PersistPayload(CompanyFacts, cik, sha.value, None, world.at(CompanyFacts, cik), bound);
      return Ok(asset);
    }

    /** `_ingest_company`: the assets it stores, reads and cites. */
    method IngestCompany(cik: Cik, world: World, files: Listing, ghost bound: Instant)
      returns (company: Result<Company, Failure>)
      requires Sound(table, bound) && Timely(world, bound) && Observes(world, table)
      modifies this
      ensures Sound(table, bound) && old(table) <= table
      ensures company.Err? ==> company.error != Inconsistent
      ensures company.Ok? ==> CompanyFits(company.value, cik, files) && CompanyStored(table, company.value)
      ensures company.Ok? ==> Cites(world, old(table), cik, files, company.value)
      ensures company == Err(ProviderFailure) <==> FetchFails(world, old(table), cik, files)
      ensures company == Err(MalformedSubmissions) <==>
        world.submissions(cik).Some? && files(world.submissions(cik).value).None?
      ensures GrowsByFetches(world, cik, old(table), table)
    {
      ghost var was := table;
      var submissionsSha := world.submissions(cik);
      if submissionsSha.None? {
        return Err(ProviderFailure);
      }
      var latest: Option<Asset> :=
        if world.observedFacts(cik).Some? then Some(table[world.observedFacts(cik).value]) else None;
      var submissions, submissionsCreated := PersistPayload(Submissions, cik, submissionsSha.value, None,
        world.at(Submissions, cik), bound);
      var listed := files(submissions.sha);
      if listed.None? {
        return Err(MalformedSubmissions);
      }
      ghost var submitted := table;
      company := Gather(cik, submissions, submissionsCreated, latest, listed.value, world, files, was, bound);
      GrowsTwice(world, cik, was, submitted, table);
    }

    /** What the submissions call for: the history files and the company facts. */
    method Gather(cik: Cik, submissions: Asset, submissionsCreated: bool, latest: Option<Asset>, names: seq<Filename>,
                  world: World, files: Listing, ghost was: Table, ghost bound: Instant)
      returns (company: Result<Company, Failure>)
      requires Sound(table, bound) && Timely(world, bound) && SameHistory(was, table)
      requires Stored(table, submissions) && submissions.kind == Submissions && submissions.subject == cik
      requires files(submissions.sha) == Some(names)
      requires submissionsCreated <==> !Holds(was, Submissions, cik, submissions.sha, None)
      requires latest.Some? <==> world.observedFacts(cik).Some?
      requires latest.Some? ==>
        && Stored(table, latest.value) && latest.value.kind == CompanyFacts && latest.value.subject == cik
        && world.observedFacts(cik).value < |was| && latest.value == was[world.observedFacts(cik).value]
      modifies this
      ensures Sound(table, bound) && GrowsByFetches(world, cik, old(table), table)
      ensures company.Err? ==> company.error == ProviderFailure
      ensures company.Err? <==> RestFails(world, was, cik, submissions.sha, names)
      ensures company.Ok? ==>
        && company.value.submissions == submissions && CitesRest(world, was, cik, names, company.value)
        && CompanyFits(company.value, cik, files) && CompanyStored(table, company.value)
    {
      ghost var submitted := table;
      var held, allKnown := KnownHistory(cik, names, was);
      var fetchFacts := latest.None? || submissionsCreated || world.reconciliationDue(cik) || world.retryDue(cik);
      var normalizationComplete := latest.Some? && allKnown && world.normalized(cik);
      var normalize := fetchFacts || (latest.Some? && !normalizationComplete);
      assert fetchFacts == FactsDue(world, was, cik, submissions.sha);
      assert normalize == NormalizationDue(world, was, cik, submissions.sha, names);
      var used := HistoryFor(cik, names, held, normalize, world, was, bound);
      if used.Err? {
        return Err(used.error);
      }
      ghost var before := table;
      var facts := FactsFor(cik, latest, fetchFacts, world, bound);
      GrowsTwice(world, cik, submitted, before, table);
      if facts.Err? {
        return Err(facts.error);
      }
      HeldLonger(before, table, cik, names, used.value);
      var history := UsedHistory(cik, names, used.value);
      if history.None? {
        return Err(Inconsistent);
      }
      FittingParts(table, submissions, history.value, facts.value, cik, files);
      UsedAreCited(world, was, cik, submissions.sha, names, normalize, used.value, history.value);
      return Ok(Company(submissions, history.value, facts.value));
    }

    /** `run_sec_ingestion`: mapping order, selected and not excluded symbols. */
    method RunSecIngestion(config: SecConfig, mapping: Asset, selected: set<Symbol>, world: World, files: Listing,
                           ghost bound: Instant)
      returns (refs: Result<seq<AssetRef>, Failure>, ghost companies: seq<Company>)
      requires Sound(table, bound) && Timely(world, bound) && Observes(world, table) && Stored(table, mapping)
      modifies this
      ensures Sound(table, bound) && old(table) <= table
      ensures refs.Err? ==> refs.error != Inconsistent
      ensures refs.Ok? ==>
        && Canonical(refs.value, mapping, ChosenCiks(config, selected), companies, files)
        && (forall a :: a in AssetsOf(companies) ==> Stored(table, a))
        && AllFresh(world, ChosenCiks(config, selected), companies)
    {
      var emitted := [RefFor(mapping)];
      companies := [];
      ghost var ciks: seq<Cik> := [];
      var i := 0;
      while i < |config.mappings|
        invariant 0 <= i <= |config.mappings|
        invariant Sound(table, bound) && old(table) <= table
        invariant ciks == Chosen(config.mappings[..i], config.excluded, selected)
        invariant EmittedFresh(emitted, mapping, ciks, companies, files, table, world)
      {
        ChosenNext(config.mappings, config.excluded, selected, i);
        var (symbol, cik) := config.mappings[i];
        if symbol in selected && symbol !in config.excluded {
          ghost var before := table;
          var company := IngestCompany(cik, world, files, bound);
          if company.Err? {
            return Err(company.error), companies;
          }
          EmittedFreshNext(emitted, mapping, ciks, companies, files, before, table, world, cik, company.value);
          ciks := ciks + [cik];
          emitted := emitted + RefsOf(company.value.Assets());
          companies := companies + [company.value];
        }
        i := i + 1;
      }
      assert config.mappings[..|config.mappings|] == config.mappings;
      return Ok(emitted), companies;
    }
  }

  /** The CIKs a run covers, in the configuration's own order. */
  function Chosen(mappings: seq<(Symbol, Cik)>, excluded: set<Symbol>, selected: set<Symbol>): seq<Cik> {
    if mappings == [] then []
    else
      var rest := Chosen(mappings[..|mappings| - 1], excluded, selected);
      var (symbol, cik) := mappings[|mappings| - 1];
      if symbol in selected && symbol !in excluded then rest + [cik] else rest
  }

  ghost predicate AllFresh(world: World, ciks: seq<Cik>, companies: seq<Company>) {
    |companies| == |ciks| && forall i :: 0 <= i < |ciks| ==> CitesFresh(world, ciks[i], companies[i])
  }

  lemma ChosenNext(mappings: seq<(Symbol, Cik)>, excluded: set<Symbol>, selected: set<Symbol>, i: nat)
    requires i < |mappings|
    ensures Chosen(mappings[..i + 1], excluded, selected) ==
      Chosen(mappings[..i], excluded, selected)
      + if mappings[i].0 in selected && mappings[i].0 !in excluded then [mappings[i].1] else []
  {
    assert mappings[..i + 1][..i] == mappings[..i];
  }

  ghost predicate EmittedFresh(refs: seq<AssetRef>, mapping: Asset, ciks: seq<Cik>, companies: seq<Company>,
                               files: Listing, table: Table, world: World) {
    Emitted(refs, mapping, ciks, companies, files, table) && AllFresh(world, ciks, companies)
  }

  lemma EmittedFreshNext(refs: seq<AssetRef>, mapping: Asset, ciks: seq<Cik>, companies: seq<Company>, files: Listing,
                         before: Table, table: Table, world: World, cik: Cik, c: Company)
    requires EmittedFresh(refs, mapping, ciks, companies, files, before, world) && before <= table
    requires CompanyFits(c, cik, files) && CompanyStored(table, c) && Cites(world, before, cik, files, c)
    ensures EmittedFresh(refs + RefsOf(c.Assets()), mapping, ciks + [cik], companies + [c], files, table, world)
  {
    EmittedNext(refs, mapping, ciks, companies, files, before, table, cik, c);
    CitedIsFresh(world, before, cik, files, c);
  }

  predicate Covers(excluded: set<Symbol>, selected: set<Symbol>, m: (Symbol, Cik)) {
    m.0 in selected && m.0 !in excluded
  }

  /** The places of the covered mappings, in order. */
  ghost predicate ArePlaces(places: seq<nat>, mappings: seq<(Symbol, Cik)>, excluded: set<Symbol>,
                            selected: set<Symbol>) {
    && (forall j, k :: 0 <= j < k < |places| ==> places[j] < places[k])
    && (forall k :: 0 <= k < |places| ==>
          places[k] < |mappings| && Covers(excluded, selected, mappings[places[k]]))
    && (forall i: nat :: i < |mappings| && Covers(excluded, selected, mappings[i]) ==> i in places)
  }

  ghost predicate CiksAt(ciks: seq<Cik>, mappings: seq<(Symbol, Cik)>, places: seq<nat>) {
    |ciks| == |places| && forall k :: 0 <= k < |places| ==> places[k] < |mappings| && ciks[k] == mappings[places[k]].1
  }

  lemma PlacesNext(mappings: seq<(Symbol, Cik)>, excluded: set<Symbol>, selected: set<Symbol>, front: seq<nat>)
    requires mappings != [] && ArePlaces(front, mappings[..|mappings| - 1], excluded, selected)
    ensures var n := |mappings| - 1;
      ArePlaces(if Covers(excluded, selected, mappings[n]) then front + [n] else front, mappings, excluded, selected)
  {
    var n := |mappings| - 1;
    var places := if Covers(excluded, selected, mappings[n]) then front + [n] else front;
    forall i: nat | i < |mappings| && Covers(excluded, selected, mappings[i]) ensures i in places {
      if i < n {
        assert mappings[..n][i] == mappings[i] && i in front;
      }
    }
  }

  /** The run covers exactly the mappings whose symbol is selected and not
      excluded, in the configuration's order. */
  lemma {:induction false} ChosenByPlace(mappings: seq<(Symbol, Cik)>, excluded: set<Symbol>, selected: set<Symbol>)
    returns (places: seq<nat>)
    ensures ArePlaces(places, mappings, excluded, selected)
    ensures CiksAt(Chosen(mappings, excluded, selected), mappings, places)
  {
    places := [];
    if mappings != [] {
      var n := |mappings| - 1;
      var front := ChosenByPlace(mappings[..n], excluded, selected);
      PlacesNext(mappings, excluded, selected, front);
      CiksNext(mappings, Chosen(mappings[..n], excluded, selected), front);
      places := if Covers(excluded, selected, mappings[n]) then front + [n] else front;
    }
  }

  lemma CiksNext(mappings: seq<(Symbol, Cik)>, ciks: seq<Cik>, front: seq<nat>)
    requires mappings != [] && CiksAt(ciks, mappings[..|mappings| - 1], front)
    ensures CiksAt(ciks, mappings, front)
    ensures CiksAt(ciks + [mappings[|mappings| - 1].1], mappings, front + [|mappings| - 1])
  {
  }

  function ChosenCiks(config: SecConfig, selected: set<Symbol>): seq<Cik> {
    Chosen(config.mappings, config.excluded, selected)
  }

  /** The list so far is canonical for companies whose assets are stored. */
  ghost predicate Emitted(refs: seq<AssetRef>, mapping: Asset, ciks: seq<Cik>, companies: seq<Company>, files: Listing,
                          table: Table) {
    Canonical(refs, mapping, ciks, companies, files) && forall a :: a in AssetsOf(companies) ==> Stored(table, a)
  }

  lemma EmittedNext(refs: seq<AssetRef>, mapping: Asset, ciks: seq<Cik>, companies: seq<Company>, files: Listing,
                    before: Table, table: Table, cik: Cik, c: Company)
    requires Emitted(refs, mapping, ciks, companies, files, before) && before <= table
    requires CompanyFits(c, cik, files) && CompanyStored(table, c)
    ensures Emitted(refs + RefsOf(c.Assets()), mapping, ciks + [cik], companies + [c], files, table)
  {
    CanonicalGrows(refs, mapping, ciks, companies, files, cik, c);
  }

  lemma CanonicalGrows(refs: seq<AssetRef>, mapping: Asset, ciks: seq<Cik>, companies: seq<Company>, files: Listing,
                       cik: Cik, c: Company)
    requires Canonical(refs, mapping, ciks, companies, files) && CompanyFits(c, cik, files)
    ensures Canonical(refs + RefsOf(c.Assets()), mapping, ciks + [cik], companies + [c], files)
    ensures AssetsOf(companies + [c]) == AssetsOf(companies) + c.Assets()
  {
    AssetsGrow(companies, c);
    RefsConcat(AssetsOf(companies), c.Assets());
    Regroup(RefFor(mapping), RefsOf(AssetsOf(companies)), RefsOf(c.Assets()));
    FitsGrow(ciks, companies, files, cik, c);
  }

  lemma Regroup(first: AssetRef, s: seq<AssetRef>, t: seq<AssetRef>)
    ensures [first] + s + t == [first] + (s + t)
  {
  }

  lemma RefsConcat(s: seq<Asset>, t: seq<Asset>)
    ensures RefsOf(s + t) == RefsOf(s) + RefsOf(t)
  {
  }

  lemma AssetsGrow(companies: seq<Company>, c: Company)
    ensures AssetsOf(companies + [c]) == AssetsOf(companies) + c.Assets()
  {
    assert (companies + [c])[..|companies|] == companies;
  }

  lemma FitsGrow(ciks: seq<Cik>, companies: seq<Company>, files: Listing, cik: Cik, c: Company)
    requires AllFit(companies, ciks, files) && CompanyFits(c, cik, files)
    ensures AllFit(companies + [c], ciks + [cik], files)
  {
    forall i | 0 <= i < |ciks| + 1
      ensures CompanyFits((companies + [c])[i], (ciks + [cik])[i], files)
    {
    }
  }

  /** A run over the whole universe covers every reviewed CIK. */
  lemma {:induction false} WholeUniverse(mappings: seq<(Symbol, Cik)>, excluded: set<Symbol>, selected: set<Symbol>)
    requires forall m :: m in mappings ==> m.0 in selected && m.0 !in excluded
    ensures Chosen(mappings, excluded, selected) == CiksOf(mappings)
  {
    if mappings != [] {
      var front := mappings[..|mappings| - 1];
      assert mappings == front + [mappings[|mappings| - 1]];
      assert mappings[|mappings| - 1] in mappings;
      WholeUniverse(front, excluded, selected);
    }
  }

  /** A canonical list of stored assets is one the stage verifier accepts. */
  lemma StoredClosureHolds(refs: seq<AssetRef>, mapping: Asset, ciks: seq<Cik>, companies: seq<Company>, files: Listing,
                           table: Table, cutoff: Instant)
    requires Sound(table, cutoff) && Stored(table, mapping)
    requires Canonical(refs, mapping, ciks, companies, files)
    requires forall a :: a in AssetsOf(companies) ==> Stored(table, a)
    ensures StageHolds(refs, mapping, ciks, files, table, cutoff)
  {
    forall a | Stored(table, a) ensures a.availableAt <= cutoff && a.retrievedAt <= cutoff {
      assert table[a.id].retrievedAt <= cutoff;
    }
    assert Admitted(AssetsOf(companies), table, cutoff);
  }

  /** A full-universe ingestion with the pinned mapping asset, then the stage
      verifier over the stored table: the emitted list is accepted, on the
      normalising and on the no-op path of every company alike, and it has one
      reference plus two and its filenames for each company. */
  method IngestAndVerify(store: AssetStore, config: SecConfig, mapping: Asset, world: World, files: Listing,
                         cutoff: Instant)
    returns (refs: Result<seq<AssetRef>, Failure>, accepted: bool, ghost companies: seq<Company>)
    requires Sound(store.table, cutoff) && Timely(world, cutoff)
    requires Observes(world, store.table) && Stored(store.table, mapping)
    requires mapping.kind == Mapping && mapping.sha == config.pinned
    requires Reviewed(config) && ListsDistinct(files)
    requires forall m :: m in config.mappings ==> m.0 in config.universe
    modifies store
    ensures refs.Ok? ==>
      accepted && |refs.value| == 1 + FilesListed(companies, files) && |companies| == |config.mappings|
  {
    refs, companies := store.RunSecIngestion(config, mapping, config.universe, world, files, cutoff);
    if refs.Err? {
      return refs, false, companies;
    }
    var ciks := CiksOf(config.mappings);
    WholeUniverse(config.mappings, config.excluded, config.universe);
    StoredClosureHolds(refs.value, mapping, ciks, companies, files, store.table, cutoff);
    accepted := VerifySecStage(refs.value, mapping, ciks, files, store.table, cutoff);
    CanonicalLength(refs.value, mapping, ciks, companies, files);
  }
}
