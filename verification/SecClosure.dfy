/** The asset references an SEC ingestion emits, and the stage verifier that
    rebuilds them (sec_ingestion.py, sec_refresh_validation.py).

    An asset's id is its position in the append-only asset table. CIKs, symbols
    and filenames are numbers in their alphabetical order; checksums identify
    contents, so the filenames a submissions payload lists are a function of its
    checksum. */
module SecClosure {
  import opened Wrappers
  import opened Sorting
  import opened IntegerSets
  import opened Grouping

  type Cik = nat
  type Symbol = nat
  type Filename = int
  type Sha = nat
  type Instant = int

  datatype Kind = Mapping | Submissions | History | CompanyFacts | OtherKind

  datatype Asset = Asset(
    id: nat,
    kind: Kind,
    subject: Cik,
    sha: Sha,
    filename: Option<Filename>,
    availableAt: Instant,
    retrievedAt: Instant)

  datatype AssetRef = AssetRef(id: nat, kind: Kind, subject: Cik, sha: Sha)

  function RefFor(asset: Asset): AssetRef {
    AssetRef(asset.id, asset.kind, asset.subject, asset.sha)
  }

  type Table = seq<Asset>

  ghost predicate ValidTable(table: Table) {
    forall i :: 0 <= i < |table| ==> table[i].id == i && table[i].availableAt <= table[i].retrievedAt
  }

  predicate Stored(table: Table, asset: Asset) {
    asset.id < |table| && table[asset.id] == asset
  }

  /** `historical_submission_filenames`, by checksum: None is a malformed payload,
      and the listed names are distinct. */
  type Listing = Sha -> Option<seq<Filename>>

  ghost predicate ListsDistinct(files: Listing) {
    forall sha :: files(sha).Some? ==>
      forall i, j :: 0 <= i < j < |files(sha).value| ==> files(sha).value[i] != files(sha).value[j]
  }

  function NameSet(names: seq<Filename>): set<int> {
    set n: int | n in names
  }

  function SortedNames(names: seq<Filename>): seq<int> {
    SortedSet(NameSet(names))
  }

  // ---------------------------------------------------------------------
  // Canonical closures
  // ---------------------------------------------------------------------

  /** One company's evidence; history in filename order. */
  datatype Company = Company(submissions: Asset, history: seq<Asset>, facts: Asset) {
    function Assets(): seq<Asset> {
      [submissions] + history + [facts]
    }
  }

  ghost predicate CompanyFits(c: Company, cik: Cik, files: Listing) {
    && c.submissions.kind == Submissions && c.submissions.subject == cik
    && c.facts.kind == CompanyFacts && c.facts.subject == cik
    && files(c.submissions.sha).Some?
    && var names := SortedNames(files(c.submissions.sha).value);
       && |c.history| == |names|
       && forall i :: 0 <= i < |names| ==>
            c.history[i].kind == History && c.history[i].subject == cik && c.history[i].filename == Some(names[i])
  }

  function AssetsOf(companies: seq<Company>): seq<Asset> {
    if companies == [] then []
    else AssetsOf(companies[..|companies| - 1]) + companies[|companies| - 1].Assets()
  }

  function RefsOf(assets: seq<Asset>): (refs: seq<AssetRef>)
    ensures |refs| == |assets|
    ensures forall i :: 0 <= i < |refs| ==> refs[i] == RefFor(assets[i])
  {
    seq(|assets|, i requires 0 <= i < |assets| => RefFor(assets[i]))
  }

  /** Every cited asset is stored and was admitted by the cutoff. */
  ghost predicate Admitted(assets: seq<Asset>, table: Table, cutoff: Instant) {
    forall a :: a in assets ==> Stored(table, a) && a.availableAt <= cutoff && a.retrievedAt <= cutoff
  }

  /** The reference list is the mapping, then company by company in CIK order. */
  ghost predicate Canonical(refs: seq<AssetRef>, mapping: Asset, ciks: seq<Cik>, companies: seq<Company>,
                            files: Listing) {
    && |companies| == |ciks|
    && (forall i :: 0 <= i < |ciks| ==> CompanyFits(companies[i], ciks[i], files))
    && refs == [RefFor(mapping)] + RefsOf(AssetsOf(companies))
  }

  // ---------------------------------------------------------------------
  // The length of a closure
  // ---------------------------------------------------------------------

  function FilesListed(companies: seq<Company>, files: Listing): nat {
    if companies == [] then 0
    else
      var c := companies[|companies| - 1];
      FilesListed(companies[..|companies| - 1], files)
      + 2 + (if files(c.submissions.sha).Some? then |files(c.submissions.sha).value| else 0)
  }

  lemma {:induction false} SortedSetSize(s: set<int>)
    ensures |SortedSet(s)| == |s|
  {
    if s != {} {
      SortedSetSize(s - {Least(s)});
    }
  }

  lemma {:induction false} DistinctSetSize(names: seq<Filename>)
    requires Distinct(names)
    ensures |NameSet(names)| == |names|
  {
    if names == [] {
      assert NameSet(names) == {};
    } else {
      var front := names[..|names| - 1];
      var last := names[|names| - 1];
      assert names == front + [last];
      DistinctSetSize(front);
      assert last !in NameSet(front);
      assert NameSet(names) == NameSet(front) + {last};
    }
  }

  lemma SortedNamesSize(names: seq<Filename>)
    requires Distinct(names)
    ensures |SortedNames(names)| == |names|
  {
    SortedSetSize(NameSet(names));
    DistinctSetSize(names);
  }

  lemma {:induction false} BodyLength(ciks: seq<Cik>, companies: seq<Company>, files: Listing)
    requires ListsDistinct(files) && |companies| == |ciks|
    requires forall i :: 0 <= i < |ciks| ==> CompanyFits(companies[i], ciks[i], files)
    ensures |AssetsOf(companies)| == FilesListed(companies, files)
  {
    if companies != [] {
      var n := |companies| - 1;
      BodyLength(ciks[..n], companies[..n], files);
      assert CompanyFits(companies[n], ciks[n], files);
      SortedNamesSize(files(companies[n].submissions.sha).value);
    }
  }

  /** A canonical list has one reference, plus two and its filenames per company. */
  lemma CanonicalLength(refs: seq<AssetRef>, mapping: Asset, ciks: seq<Cik>, companies: seq<Company>, files: Listing)
    requires ListsDistinct(files) && Canonical(refs, mapping, ciks, companies, files)
    ensures |refs| == 1 + FilesListed(companies, files)
  {
    BodyLength(ciks, companies, files);
  }

  // ---------------------------------------------------------------------
  // The verifier
  // ---------------------------------------------------------------------

  function KeyOf(asset: Asset): (Kind, Cik) { (asset.kind, asset.subject) }

  function NameOf(asset: Asset): Option<Filename> { asset.filename }

  /** `resolve_asset_ref`. */
  function Resolve(ref: AssetRef, table: Table, cutoff: Instant): Option<Asset> {
    if ref.id < |table| && RefFor(table[ref.id]) == ref && table[ref.id].availableAt <= cutoff
      && table[ref.id].retrievedAt <= cutoff
    then Some(table[ref.id])
    else None
  }

  /** One CIK's checks: exactly one submissions, one companyfacts, and one
      history asset for each required filename and no other. */
  ghost predicate Accounted(submissions: seq<Asset>, facts: seq<Asset>, history: seq<Asset>, files: Listing,
                            c: Company) {
    && submissions == [c.submissions]
    && facts == [c.facts]
    && files(c.submissions.sha).Some?
    && (forall a :: a in history ==> a.filename.Some? && a.filename.value in files(c.submissions.sha).value)
    && var names := SortedNames(files(c.submissions.sha).value);
       && |c.history| == |names|
       && forall i :: 0 <= i < |names| ==> Filter(history, NameOf, Some(names[i])) == [c.history[i]]
  }

  /** The history assets in filename order, if each filename names exactly one. */
  method HistoryInOrder(names: seq<int>, byFilename: map<Option<Filename>, seq<Asset>>, ghost history: seq<Asset>)
    returns (ok: bool, ordered: seq<Asset>)
    requires byFilename == Grouped(history, NameOf)
    ensures ok ==> |ordered| == |names| && forall i :: 0 <= i < |names| ==>
      Filter(history, NameOf, Some(names[i])) == [ordered[i]]
    ensures !ok ==> exists n :: n in names && |Filter(history, NameOf, Some(n))| != 1
  {
    ordered := [];
    var i := 0;
    while i < |names|
      invariant 0 <= i == |ordered| <= |names|
      invariant forall k :: 0 <= k < i ==> Filter(history, NameOf, Some(names[k])) == [ordered[k]]
    {
      var name: Option<Filename> := Some(names[i]);
      var found := if name in byFilename then byFilename[name] else [];
      Found(history, byFilename, name, NameOf);
      if |found| != 1 {
        var missing: Filename := names[i];
        assert missing in names && |Filter(history, NameOf, Some(missing))| != 1;
        return false, ordered;
      }
      ordered := ordered + [found[0]];
      i := i + 1;
    }
    ok := true;
  }

  lemma Found<K>(assets: seq<Asset>, groups: map<K, seq<Asset>>, k: K, key: Asset -> K)
    requires groups == Grouped(assets, key)
    ensures (if k in groups then groups[k] else []) == Filter(assets, key, k)
  {
    if k !in groups {
      NothingToFilter(assets, key, k);
    }
  }

  lemma SortedNamesMembers(names: seq<Filename>)
    ensures forall n :: n in SortedNames(names) <==> n in names
  {
  }

  /** The body of the per-CIK loop. */
  method VerifyCompany(submissions: seq<Asset>, facts: seq<Asset>, history: seq<Asset>, files: Listing)
    returns (company: Option<Company>)
    ensures company.Some? ==> Accounted(submissions, facts, history, files, company.value)
    ensures company.None? ==> forall c :: !Accounted(submissions, facts, history, files, c)
  {
    if |submissions| != 1 || |facts| != 1 {
      return None;
    }
    var required := files(submissions[0].sha);
    if required.None? {
      return None;
    }
    var unnamed := exists k :: 0 <= k < |history| && history[k].filename.None?;
    if unnamed {
      var k :| 0 <= k < |history| && history[k].filename.None?;
      assert history[k] in history;
      return None;
    }
    var unexpected := exists k ::
      0 <= k < |history| && history[k].filename.Some? && history[k].filename.value !in required.value;
    if unexpected {
      var k :| 0 <= k < |history| && history[k].filename.Some? && history[k].filename.value !in required.value;
      assert history[k] in history;
      return None;
    }
    var keys, byFilename := GroupBy(history, NameOf);
    SortedNamesMembers(required.value);
    var ok, ordered := HistoryInOrder(SortedNames(required.value), byFilename, history);
    if !ok {
      return None;
    }
    return Some(Company(submissions[0], ordered, facts[0]));
  }

  /** The stage verifier's verdict: the list is the canonical one of some
      closure whose assets are all stored and admitted. */
  ghost predicate StageHolds(refs: seq<AssetRef>, mapping: Asset, ciks: seq<Cik>, files: Listing, table: Table,
                             cutoff: Instant) {
    && mapping.availableAt <= cutoff && mapping.retrievedAt <= cutoff
    && exists companies :: Canonical(refs, mapping, ciks, companies, files)
         && Admitted(AssetsOf(companies), table, cutoff)
  }

  predicate SecKind(kind: Kind) {
    kind != OtherKind
  }

  /** The loop over the recorded references. */
  predicate Eligible(ref: AssetRef, ciks: seq<Cik>, table: Table, cutoff: Instant) {
    SecKind(ref.kind) && ref.subject in ciks && Resolve(ref, table, cutoff).Some?
  }

  function ResolvedAssets(refs: seq<AssetRef>, mapping: AssetRef, table: Table, cutoff: Instant): seq<Asset> {
    if refs == [] then []
    else
      var rest := ResolvedAssets(refs[..|refs| - 1], mapping, table, cutoff);
      var ref := refs[|refs| - 1];
      if ref == mapping || Resolve(ref, table, cutoff).None? then rest else rest + [Resolve(ref, table, cutoff).value]
  }

  method ResolveRefs(refs: seq<AssetRef>, mapping: AssetRef, ciks: seq<Cik>, table: Table, cutoff: Instant)
    returns (ok: bool, assets: seq<Asset>)
    ensures ok <==> forall r :: r in refs && r != mapping ==> Eligible(r, ciks, table, cutoff)
    ensures ok ==> assets == ResolvedAssets(refs, mapping, table, cutoff)
  {
    assets := [];
    var i := 0;
    while i < |refs|
      invariant 0 <= i <= |refs|
      invariant forall k :: 0 <= k < i && refs[k] != mapping ==> Eligible(refs[k], ciks, table, cutoff)
      invariant assets == ResolvedAssets(refs[..i], mapping, table, cutoff)
    {
      assert refs[..i + 1][..i] == refs[..i];
      var ref := refs[i];
      if ref != mapping {
        if !SecKind(ref.kind) || ref.subject !in ciks {
          assert ref in refs;
          return false, assets;
        }
        var resolved := Resolve(ref, table, cutoff);
        if resolved.None? {
          assert ref in refs;
          return false, assets;
        }
        assets := assets + [resolved.value];
      }
      i := i + 1;
    }
    assert refs[..|refs|] == refs;
    ok := true;
  }

  ghost predicate AccountedAt(assets: seq<Asset>, cik: Cik, files: Listing, c: Company) {
    Accounted(
      Filter(assets, KeyOf, (Submissions, cik)), Filter(assets, KeyOf, (CompanyFacts, cik)),
      Filter(assets, KeyOf, (History, cik)), files, c)
  }

  method VerifyCik(ghost assets: seq<Asset>, byKindCik: map<(Kind, Cik), seq<Asset>>, cik: Cik, files: Listing)
    returns (company: Option<Company>)
    requires byKindCik == Grouped(assets, KeyOf)
    ensures company.Some? ==> AccountedAt(assets, cik, files, company.value)
    ensures company.None? ==> Unaccountable(assets, cik, files)
  {
    Found(assets, byKindCik, (Submissions, cik), KeyOf);
    Found(assets, byKindCik, (CompanyFacts, cik), KeyOf);
    Found(assets, byKindCik, (History, cik), KeyOf);
    company := VerifyCompany(
      if (Submissions, cik) in byKindCik then byKindCik[(Submissions, cik)] else [],
      if (CompanyFacts, cik) in byKindCik then byKindCik[(CompanyFacts, cik)] else [],
      if (History, cik) in byKindCik then byKindCik[(History, cik)] else [], files);
  }

  ghost predicate Unaccountable(assets: seq<Asset>, cik: Cik, files: Listing) {
    forall c :: !AccountedAt(assets, cik, files, c)
  }

  /** The per-CIK loop. */
  method VerifyCompanies(assets: seq<Asset>, ciks: seq<Cik>, files: Listing) returns (ok: bool, companies: seq<Company>)
    ensures ok ==> |companies| == |ciks| && forall i :: 0 <= i < |ciks| ==>
      AccountedAt(assets, ciks[i], files, companies[i])
    ensures !ok ==> exists i :: 0 <= i < |ciks| && Unaccountable(assets, ciks[i], files)
  {
    var keys, byKindCik := GroupBy(assets, KeyOf);
    companies := [];
    var i := 0;
    while i < |ciks|
      invariant 0 <= i == |companies| <= |ciks|
      invariant forall k :: 0 <= k < i ==> AccountedAt(assets, ciks[k], files, companies[k])
    {
      var company := VerifyCik(assets, byKindCik, ciks[i], files);
      if company.None? {
        return false, companies;
      }
      companies := companies + [company.value];
      i := i + 1;
    }
    ok := true;
  }

  predicate AllDistinct(refs: seq<AssetRef>)
  {
    forall i, j :: 0 <= i < j < |refs| ==> refs[i] != refs[j]
  }

  // ---------------------------------------------------------------------
  // A canonical list passes every check
  // ---------------------------------------------------------------------

  lemma FitsAt(ciks: seq<Cik>, companies: seq<Company>, files: Listing, i: nat)
    requires |companies| == |ciks| && i < |ciks|
    requires forall i :: 0 <= i < |ciks| ==> CompanyFits(companies[i], ciks[i], files)
    ensures CompanyFits(companies[i], ciks[i], files)
  {
  }

  function PartOf(c: Company, kind: Kind): seq<Asset> {
    match kind
    case Submissions => [c.submissions]
    case History => c.history
    case CompanyFacts => [c.facts]
    case _ => []
  }

  lemma HistoryParts(history: seq<Asset>, cik: Cik, key: (Kind, Cik))
    requires forall i :: 0 <= i < |history| ==> KeyOf(history[i]) == (History, cik)
    ensures Filter(history, KeyOf, key) == if key == (History, cik) then history else []
  {
    if key == (History, cik) {
      OneGroup(history, KeyOf, key);
    } else {
      FilterNone(history, KeyOf, key);
    }
  }

  lemma PartsInOrder(first: Asset, history: seq<Asset>, last: Asset, key: (Kind, Cik))
    ensures Filter([first] + history + [last], KeyOf, key) ==
      Filter([first], KeyOf, key) + Filter(history, KeyOf, key) + Filter([last], KeyOf, key)
  {
    FilterConcat([first] + history, [last], KeyOf, key);
    FilterConcat([first], history, KeyOf, key);
  }

  /** Kinds and subjects of a company's assets. */
  ghost predicate Keyed(c: Company, cik: Cik) {
    && KeyOf(c.submissions) == (Submissions, cik) && KeyOf(c.facts) == (CompanyFacts, cik)
    && forall i :: 0 <= i < |c.history| ==> KeyOf(c.history[i]) == (History, cik)
  }

  lemma FittingIsKeyed(c: Company, cik: Cik, files: Listing)
    requires CompanyFits(c, cik, files)
    ensures Keyed(c, cik)
  {
  }

  lemma KeyedParts(c: Company, cik: Cik, kind: Kind, subject: Cik)
    requires Keyed(c, cik)
    ensures Filter(c.Assets(), KeyOf, (kind, subject)) == if subject == cik then PartOf(c, kind) else []
  {
    var key := (kind, subject);
    PartsInOrder(c.submissions, c.history, c.facts, key);
    HistoryParts(c.history, cik, key);
    One(c.submissions, key);
    One(c.facts, key);
  }

  lemma CompanyParts(c: Company, cik: Cik, files: Listing, kind: Kind, subject: Cik)
    requires CompanyFits(c, cik, files)
    ensures Filter(c.Assets(), KeyOf, (kind, subject)) == if subject == cik then PartOf(c, kind) else []
  {
    FittingIsKeyed(c, cik, files);
    KeyedParts(c, cik, kind, subject);
  }

  lemma One(a: Asset, key: (Kind, Cik))
    ensures Filter([a], KeyOf, key) == if KeyOf(a) == key then [a] else []
  {
    assert [a][..0] == [];
  }

  ghost predicate AllFit(companies: seq<Company>, ciks: seq<Cik>, files: Listing) {
    |companies| == |ciks| && forall i :: 0 <= i < |ciks| ==> CompanyFits(companies[i], ciks[i], files)
  }

  lemma AllFitFront(companies: seq<Company>, ciks: seq<Cik>, files: Listing)
    requires AllFit(companies, ciks, files) && companies != []
    ensures AllFit(companies[..|companies| - 1], ciks[..|ciks| - 1], files)
    ensures CompanyFits(companies[|companies| - 1], ciks[|ciks| - 1], files)
  {
  }

  /** The last company contributes its parts to its own CIK only. */
  lemma PartsSplit(companies: seq<Company>, ciks: seq<Cik>, files: Listing, kind: Kind, cik: Cik)
    requires AllFit(companies, ciks, files) && companies != []
    ensures var n := |companies| - 1;
      Filter(AssetsOf(companies), KeyOf, (kind, cik)) ==
      Filter(AssetsOf(companies[..n]), KeyOf, (kind, cik)) + (if cik == ciks[n] then PartOf(companies[n], kind) else [])
  {
    var n := |companies| - 1;
    FilterConcat(AssetsOf(companies[..n]), companies[n].Assets(), KeyOf, (kind, cik));
    CompanyParts(companies[n], ciks[n], files, kind, cik);
  }

  lemma {:induction false} PartsElsewhere(companies: seq<Company>, ciks: seq<Cik>, files: Listing, kind: Kind, cik: Cik)
    requires AllFit(companies, ciks, files) && cik !in ciks
    ensures Filter(AssetsOf(companies), KeyOf, (kind, cik)) == []
  {
    if companies != [] {
      var n := |companies| - 1;
      AllFitFront(companies, ciks, files);
      assert ciks[n] in ciks;
      PartsElsewhere(companies[..n], ciks[..n], files, kind, cik);
      PartsSplit(companies, ciks, files, kind, cik);
    }
  }

  lemma LastIsNew(ciks: seq<Cik>, i: nat)
    requires Distinct(ciks) && i < |ciks|
    ensures Distinct(ciks[..|ciks| - 1]) && ciks[|ciks| - 1] !in ciks[..|ciks| - 1]
    ensures ciks[i] == ciks[|ciks| - 1] <==> i == |ciks| - 1
  {
  }

  /** Grouping the body by kind and CIK gives back each company's parts. */
  lemma {:induction false} PartsAt(companies: seq<Company>, ciks: seq<Cik>, files: Listing, kind: Kind, i: nat)
    requires AllFit(companies, ciks, files) && Distinct(ciks) && i < |ciks|
    ensures Filter(AssetsOf(companies), KeyOf, (kind, ciks[i])) == PartOf(companies[i], kind)
  {
    var n := |companies| - 1;
    LastIsNew(ciks, i);
    AllFitFront(companies, ciks, files);
    PartsSplit(companies, ciks, files, kind, ciks[i]);
    if i < n {
      PartsAt(companies[..n], ciks[..n], files, kind, i);
    } else {
      PartsElsewhere(companies[..n], ciks[..n], files, kind, ciks[n]);
    }
  }

  lemma NamesAscend(names: seq<Filename>)
    ensures Ascending(SortedNames(names))
  {
  }

  lemma FittingIsAccounted(assets: seq<Asset>, c: Company, cik: Cik, files: Listing)
    requires CompanyFits(c, cik, files)
    requires Filter(assets, KeyOf, (Submissions, cik)) == [c.submissions]
    requires Filter(assets, KeyOf, (CompanyFacts, cik)) == [c.facts]
    requires Filter(assets, KeyOf, (History, cik)) == c.history
    ensures AccountedAt(assets, cik, files, c)
  {
    var names := SortedNames(files(c.submissions.sha).value);
    SortedNamesMembers(files(c.submissions.sha).value);
    NamesAscend(files(c.submissions.sha).value);
    forall a | a in c.history
      ensures a.filename.Some? && a.filename.value in files(c.submissions.sha).value
    {
      var i :| 0 <= i < |c.history| && c.history[i] == a;
      assert names[i] in names;
    }
    forall i: nat | i < |names|
      ensures Filter(c.history, NameOf, Some(names[i])) == [c.history[i]]
    {
      FilterUnique(c.history, NameOf, i);
    }
  }

  lemma {:induction false} ResolvesToItself(refs: seq<AssetRef>, assets: seq<Asset>, mapping: AssetRef, table: Table,
                                            cutoff: Instant)
    requires refs == RefsOf(assets) && Admitted(assets, table, cutoff)
    requires forall r :: r in refs ==> r != mapping
    ensures ResolvedAssets(refs, mapping, table, cutoff) == assets
  {
    if refs != [] {
      var n := |refs| - 1;
      assert assets == assets[..n] + [assets[n]];
      assert assets[n] in assets && refs[n] in refs;
      assert refs[..n] == RefsOf(assets[..n]);
      assert forall r :: r in refs[..n] ==> r in refs;
      ResolvesToItself(refs[..n], assets[..n], mapping, table, cutoff);
    }
  }

  lemma {:induction false} ResolvedSkipsMapping(refs: seq<AssetRef>, mapping: AssetRef, table: Table, cutoff: Instant)
    ensures ResolvedAssets([mapping] + refs, mapping, table, cutoff) == ResolvedAssets(refs, mapping, table, cutoff)
  {
    var all := [mapping] + refs;
    if refs == [] {
      assert all[..0] == [];
    } else {
      assert all[..|all| - 1] == [mapping] + refs[..|refs| - 1];
      ResolvedSkipsMapping(refs[..|refs| - 1], mapping, table, cutoff);
    }
  }

  /** Kinds and subjects of everything a fitting body cites. */
  lemma {:induction false} BodyMembers(companies: seq<Company>, ciks: seq<Cik>, files: Listing, a: Asset)
    requires AllFit(companies, ciks, files) && a in AssetsOf(companies)
    ensures a.kind != Mapping && a.kind != OtherKind && a.subject in ciks
  {
    var n := |companies| - 1;
    AllFitFront(companies, ciks, files);
    if a in AssetsOf(companies[..n]) {
      BodyMembers(companies[..n], ciks[..n], files, a);
    } else {
      assert a in companies[n].Assets();
      assert ciks[n] in ciks;
    }
  }

  lemma CompanyIsDistinct(c: Company, cik: Cik, files: Listing)
    requires CompanyFits(c, cik, files)
    ensures Distinct(c.Assets())
  {
    NamesAscend(files(c.submissions.sha).value);
    var names := SortedNames(files(c.submissions.sha).value);
    var assets := c.Assets();
    forall i, j | 0 <= i < j < |assets|
      ensures assets[i] != assets[j]
    {
      if 0 < i && j < |assets| - 1 {
        assert assets[i] == c.history[i - 1] && assets[j] == c.history[j - 1];
        assert names[i - 1] < names[j - 1];
      } else if 0 < i {
        assert assets[i] == c.history[i - 1];
      } else if j < |assets| - 1 {
        assert assets[j] == c.history[j - 1];
      }
    }
  }

  lemma {:induction false} BodyIsDistinct(companies: seq<Company>, ciks: seq<Cik>, files: Listing)
    requires AllFit(companies, ciks, files) && Distinct(ciks)
    ensures Distinct(AssetsOf(companies))
  {
    if companies != [] {
      var n := |companies| - 1;
      AllFitFront(companies, ciks, files);
      BodyIsDistinct(companies[..n], ciks[..n], files);
      CompanyIsDistinct(companies[n], ciks[n], files);
      var front, last := AssetsOf(companies[..n]), companies[n].Assets();
      forall x, y | x in front && y in last
        ensures x != y
      {
        BodyMembers(companies[..n], ciks[..n], files, x);
        CompanySubject(companies[n], ciks[n], files, y);
      }
      DistinctConcat(front, last);
    }
  }

  lemma CompanySubject(c: Company, cik: Cik, files: Listing, a: Asset)
    requires CompanyFits(c, cik, files) && a in c.Assets()
    ensures a.subject == cik
  {
  }

  lemma DistinctConcat(s: seq<Asset>, t: seq<Asset>)
    requires Distinct(s) && Distinct(t)
    requires forall x, y :: x in s && y in t ==> x != y
    ensures Distinct(s + t)
  {
    var all := s + t;
    forall i, j | 0 <= i < j < |all|
      ensures all[i] != all[j]
    {
      if i < |s| && j >= |s| {
        assert all[i] in s && all[j] in t;
      }
    }
  }

  lemma RefsAreDistinct(assets: seq<Asset>, table: Table, cutoff: Instant)
    requires Distinct(assets) && Admitted(assets, table, cutoff)
    ensures AllDistinct(RefsOf(assets))
  {
    var refs := RefsOf(assets);
    forall i, j | 0 <= i < j < |refs|
      ensures refs[i] != refs[j]
    {
      assert assets[i] in assets && assets[j] in assets;
      assert Stored(table, assets[i]) && Stored(table, assets[j]);
    }
  }

  /** The checks on the references themselves. */
  ghost predicate Listed(refs: seq<AssetRef>, mapping: Asset, ciks: seq<Cik>, table: Table, cutoff: Instant) {
    && refs != [] && AllDistinct(refs) && RefFor(mapping) in refs
    && (forall r :: r in refs && r != RefFor(mapping) ==> Eligible(r, ciks, table, cutoff))
  }

  /** The checks on each CIK's assets. */
  ghost predicate AllAccounted(assets: seq<Asset>, ciks: seq<Cik>, companies: seq<Company>, files: Listing) {
    |companies| == |ciks| && forall i :: 0 <= i < |ciks| ==> AccountedAt(assets, ciks[i], files, companies[i])
  }

  lemma BodyRefs(mapping: Asset, ciks: seq<Cik>, companies: seq<Company>, files: Listing, table: Table, cutoff: Instant)
    requires AllFit(companies, ciks, files) && Admitted(AssetsOf(companies), table, cutoff) && mapping.kind == Mapping
    ensures forall r :: r in RefsOf(AssetsOf(companies)) ==> r != RefFor(mapping) && Eligible(r, ciks, table, cutoff)
  {
    var assets := AssetsOf(companies);
    forall r | r in RefsOf(assets)
      ensures r != RefFor(mapping) && Eligible(r, ciks, table, cutoff)
    {
      var i :| 0 <= i < |assets| && RefsOf(assets)[i] == r;
      assert assets[i] in assets;
      BodyMembers(companies, ciks, files, assets[i]);
    }
  }

  lemma BodyIsListed(mapping: Asset, ciks: seq<Cik>, companies: seq<Company>, files: Listing, table: Table,
                     cutoff: Instant)
    requires Distinct(ciks) && mapping.kind == Mapping
    requires AllFit(companies, ciks, files) && Admitted(AssetsOf(companies), table, cutoff)
    ensures Listed([RefFor(mapping)] + RefsOf(AssetsOf(companies)), mapping, ciks, table, cutoff)
  {
    var body := RefsOf(AssetsOf(companies));
    var refs := [RefFor(mapping)] + body;
    BodyRefs(mapping, ciks, companies, files, table, cutoff);
    BodyIsDistinct(companies, ciks, files);
    RefsAreDistinct(AssetsOf(companies), table, cutoff);
    assert refs[0] == RefFor(mapping);
    forall i, j | 0 <= i < j < |refs|
      ensures refs[i] != refs[j]
    {
      assert refs[j] == body[j - 1] && body[j - 1] in body;
    }
  }

  lemma BodyResolves(mapping: Asset, ciks: seq<Cik>, companies: seq<Company>, files: Listing, table: Table,
                     cutoff: Instant)
    requires mapping.kind == Mapping
    requires AllFit(companies, ciks, files) && Admitted(AssetsOf(companies), table, cutoff)
    ensures ResolvedAssets([RefFor(mapping)] + RefsOf(AssetsOf(companies)), RefFor(mapping), table, cutoff) ==
      AssetsOf(companies)
  {
    var body := RefsOf(AssetsOf(companies));
    BodyRefs(mapping, ciks, companies, files, table, cutoff);
    ResolvedSkipsMapping(body, RefFor(mapping), table, cutoff);
    ResolvesToItself(body, AssetsOf(companies), RefFor(mapping), table, cutoff);
  }

  lemma BodyIsAccounted(ciks: seq<Cik>, companies: seq<Company>, files: Listing)
    requires Distinct(ciks) && AllFit(companies, ciks, files)
    ensures AllAccounted(AssetsOf(companies), ciks, companies, files)
  {
    forall i: nat | i < |ciks|
      ensures AccountedAt(AssetsOf(companies), ciks[i], files, companies[i])
    {
      PartsAt(companies, ciks, files, Submissions, i);
      PartsAt(companies, ciks, files, CompanyFacts, i);
      PartsAt(companies, ciks, files, History, i);
      FitsAt(ciks, companies, files, i);
      FittingIsAccounted(AssetsOf(companies), companies[i], ciks[i], files);
    }
  }

  lemma CanonicalFacts(refs: seq<AssetRef>, mapping: Asset, ciks: seq<Cik>, companies: seq<Company>, files: Listing,
                       table: Table, cutoff: Instant)
    requires Distinct(ciks) && mapping.kind == Mapping
    requires Canonical(refs, mapping, ciks, companies, files) && Admitted(AssetsOf(companies), table, cutoff)
    ensures Listed(refs, mapping, ciks, table, cutoff)
    ensures AllAccounted(ResolvedAssets(refs, RefFor(mapping), table, cutoff), ciks, companies, files)
  {
    BodyIsListed(mapping, ciks, companies, files, table, cutoff);
    BodyResolves(mapping, ciks, companies, files, table, cutoff);
    BodyIsAccounted(ciks, companies, files);
  }

  lemma UnlistedFails(refs: seq<AssetRef>, mapping: Asset, ciks: seq<Cik>, files: Listing, table: Table,
                      cutoff: Instant)
    requires Distinct(ciks) && mapping.kind == Mapping && !Listed(refs, mapping, ciks, table, cutoff)
    ensures !StageHolds(refs, mapping, ciks, files, table, cutoff)
  {
    forall companies | Canonical(refs, mapping, ciks, companies, files)
      ensures !Admitted(AssetsOf(companies), table, cutoff)
    {
      if Admitted(AssetsOf(companies), table, cutoff) {
        CanonicalFacts(refs, mapping, ciks, companies, files, table, cutoff);
        assert false;
      }
    }
  }

  lemma UnaccountableFails(refs: seq<AssetRef>, mapping: Asset, ciks: seq<Cik>, files: Listing, table: Table,
                           cutoff: Instant, i: nat)
    requires Distinct(ciks) && mapping.kind == Mapping && i < |ciks|
    requires Unaccountable(ResolvedAssets(refs, RefFor(mapping), table, cutoff), ciks[i], files)
    ensures !StageHolds(refs, mapping, ciks, files, table, cutoff)
  {
    forall companies | Canonical(refs, mapping, ciks, companies, files)
      ensures !Admitted(AssetsOf(companies), table, cutoff)
    {
      if Admitted(AssetsOf(companies), table, cutoff) {
        CanonicalFacts(refs, mapping, ciks, companies, files, table, cutoff);
        assert false;
      }
    }
  }

  lemma AccountedIsUnique(assets: seq<Asset>, cik: Cik, files: Listing, c: Company, d: Company)
    requires AccountedAt(assets, cik, files, c) && AccountedAt(assets, cik, files, d)
    ensures c == d
  {
    assert [c.submissions][0] == [d.submissions][0] && [c.facts][0] == [d.facts][0];
    var names := SortedNames(files(c.submissions.sha).value);
    var history := Filter(assets, KeyOf, (History, cik));
    forall i | 0 <= i < |names|
      ensures c.history[i] == d.history[i]
    {
      assert [c.history[i]] == Filter(history, NameOf, Some(names[i])) == [d.history[i]];
      assert [c.history[i]][0] == [d.history[i]][0];
    }
    assert c.history == d.history;
  }

  lemma OtherOrderFails(refs: seq<AssetRef>, mapping: Asset, ciks: seq<Cik>, companies: seq<Company>, files: Listing,
                        table: Table, cutoff: Instant)
    requires Distinct(ciks) && mapping.kind == Mapping
    requires AllAccounted(ResolvedAssets(refs, RefFor(mapping), table, cutoff), ciks, companies, files)
    requires refs != [RefFor(mapping)] + RefsOf(AssetsOf(companies))
    ensures !StageHolds(refs, mapping, ciks, files, table, cutoff)
  {
    forall others | Canonical(refs, mapping, ciks, others, files)
      ensures !Admitted(AssetsOf(others), table, cutoff)
    {
      if Admitted(AssetsOf(others), table, cutoff) {
        CanonicalFacts(refs, mapping, ciks, others, files, table, cutoff);
        SameCompanies(ResolvedAssets(refs, RefFor(mapping), table, cutoff), ciks, companies, others, files);
        assert false;
      }
    }
  }

  lemma SameCompanies(assets: seq<Asset>, ciks: seq<Cik>, companies: seq<Company>, others: seq<Company>, files: Listing)
    requires AllAccounted(assets, ciks, companies, files) && AllAccounted(assets, ciks, others, files)
    ensures companies == others
  {
    forall i | 0 <= i < |ciks|
      ensures companies[i] == others[i]
    {
      AccountedIsUnique(assets, ciks[i], files, companies[i], others[i]);
    }
  }

  // ---------------------------------------------------------------------
  // An accepted list is canonical
  // ---------------------------------------------------------------------

  lemma {:induction false} ResolvedAreAdmitted(refs: seq<AssetRef>, mapping: AssetRef, table: Table, cutoff: Instant)
    requires ValidTable(table)
    ensures Admitted(ResolvedAssets(refs, mapping, table, cutoff), table, cutoff)
  {
    if refs != [] {
      ResolvedAreAdmitted(refs[..|refs| - 1], mapping, table, cutoff);
    }
  }

  lemma AccountedFits(assets: seq<Asset>, cik: Cik, files: Listing, c: Company)
    requires AccountedAt(assets, cik, files, c)
    ensures CompanyFits(c, cik, files)
    ensures forall a :: a in c.Assets() ==> a in assets
  {
    FilterMembers(assets, KeyOf, (Submissions, cik));
    FilterMembers(assets, KeyOf, (CompanyFacts, cik));
    FilterMembers(assets, KeyOf, (History, cik));
    assert c.submissions in [c.submissions] && c.facts in [c.facts];
    var names := SortedNames(files(c.submissions.sha).value);
    var history := Filter(assets, KeyOf, (History, cik));
    forall i | 0 <= i < |names|
      ensures c.history[i] in history && c.history[i].filename == Some(names[i])
    {
      FilterMembers(history, NameOf, Some(names[i]));
      assert c.history[i] in [c.history[i]];
    }
    forall a | a in c.history
      ensures a in assets
    {
      var i :| 0 <= i < |c.history| && c.history[i] == a;
    }
  }

  lemma {:induction false} BodyWithin(assets: seq<Asset>, companies: seq<Company>)
    requires forall c :: c in companies ==> forall a :: a in c.Assets() ==> a in assets
    ensures forall a :: a in AssetsOf(companies) ==> a in assets
  {
    if companies != [] {
      var n := |companies| - 1;
      assert companies == companies[..n] + [companies[n]];
      assert companies[n] in companies;
      BodyWithin(assets, companies[..n]);
    }
  }

  lemma AcceptedIsCanonical(refs: seq<AssetRef>, mapping: Asset, ciks: seq<Cik>, companies: seq<Company>,
                            files: Listing, table: Table, cutoff: Instant)
    requires ValidTable(table) && mapping.availableAt <= cutoff && mapping.retrievedAt <= cutoff
    requires AllAccounted(ResolvedAssets(refs, RefFor(mapping), table, cutoff), ciks, companies, files)
    requires refs == [RefFor(mapping)] + RefsOf(AssetsOf(companies))
    ensures StageHolds(refs, mapping, ciks, files, table, cutoff)
  {
    var assets := ResolvedAssets(refs, RefFor(mapping), table, cutoff);
    ResolvedAreAdmitted(refs, RefFor(mapping), table, cutoff);
    forall i | 0 <= i < |ciks|
      ensures CompanyFits(companies[i], ciks[i], files)
      ensures forall a :: a in companies[i].Assets() ==> a in assets
    {
      AccountedFits(assets, ciks[i], files, companies[i]);
    }
    forall c | c in companies
      ensures forall a :: a in c.Assets() ==> a in assets
    {
      var i :| 0 <= i < |companies| && companies[i] == c;
    }
    BodyWithin(assets, companies);
    assert Canonical(refs, mapping, ciks, companies, files);
    assert Admitted(AssetsOf(companies), table, cutoff);
  }

  /** `verify_sec_stage`, from the recorded references on. */
  method VerifySecStage(refs: seq<AssetRef>, mapping: Asset, ciks: seq<Cik>, files: Listing, table: Table,
                        cutoff: Instant)
    returns (ok: bool)
    requires ValidTable(table) && Distinct(ciks) && mapping.kind == Mapping
    ensures ok <==> StageHolds(refs, mapping, ciks, files, table, cutoff)
  {
    if mapping.availableAt > cutoff || mapping.retrievedAt > cutoff {
      return false;
    }
    var mappingRef := RefFor(mapping);
    if refs == [] || !AllDistinct(refs) || mappingRef !in refs {
      UnlistedFails(refs, mapping, ciks, files, table, cutoff);
      return false;
    }
    var resolved, assets := ResolveRefs(refs, mappingRef, ciks, table, cutoff);
    if !resolved {
      UnlistedFails(refs, mapping, ciks, files, table, cutoff);
      return false;
    }
    ok := VerifyBody(refs, mapping, ciks, files, table, cutoff, assets);
  }

  method VerifyBody(refs: seq<AssetRef>, mapping: Asset, ciks: seq<Cik>, files: Listing, ghost table: Table,
                    cutoff: Instant, assets: seq<Asset>)
    returns (ok: bool)
    requires ValidTable(table) && Distinct(ciks) && mapping.kind == Mapping
    requires mapping.availableAt <= cutoff && mapping.retrievedAt <= cutoff
    requires assets == ResolvedAssets(refs, RefFor(mapping), table, cutoff)
    ensures ok <==> StageHolds(refs, mapping, ciks, files, table, cutoff)
  {
    var accounted, companies := VerifyCompanies(assets, ciks, files);
    if !accounted {
      ghost var i: nat :| i < |ciks| && Unaccountable(assets, ciks[i], files);
      UnaccountableFails(refs, mapping, ciks, files, table, cutoff, i);
      return false;
    }
    ok := refs == [RefFor(mapping)] + RefsOf(AssetsOf(companies));
    if ok {
      AcceptedIsCanonical(refs, mapping, ciks, companies, files, table, cutoff);
    } else {
      OtherOrderFails(refs, mapping, ciks, companies, files, table, cutoff);
    }
  }
}
