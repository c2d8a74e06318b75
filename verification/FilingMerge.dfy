/** Collapsing the filing records of one accession (sec_ingestion.py): the merge,
    the strict index that raises, and the tolerant index that sets ambiguous
    accessions aside. Accessions, forms and primary keys are opaque. */
module FilingMerge {
  import opened Wrappers
  import opened Grouping

  type Instant = int
  type Date = int

  /** `current` is the submissions snapshot; the others are history files. */
  datatype Asset = Asset(pk: nat, current: bool, retrievedAt: Instant, availableAt: Instant)

  /** `exact` is the basis "acceptance_datetime"; an empty document is absent. */
  datatype Record = Record(
    accession: nat,
    filingDate: Date,
    exact: bool,
    acceptanceAt: Instant,
    form: string,
    reportDate: Option<Date>,
    document: string,
    source: Asset)

  /** Without an exact acceptance the instant is derived from the filing date. */
  ghost predicate Derived(r: Record, nextDay: Date -> Instant) {
    !r.exact ==> r.acceptanceAt == nextDay(r.filingDate)
  }

  // ---------------------------------------------------------------------
  // The merge of two records
  // ---------------------------------------------------------------------

  /** Two independently supplied values differ. */
  predicate Conflict(a: Record, b: Record) {
    || a.filingDate != b.filingDate
    || a.form != b.form
    || (a.reportDate.Some? && b.reportDate.Some? && a.reportDate != b.reportDate)
    || (a.document != "" && b.document != "" && a.document != b.document)
    || (a.exact && b.exact && a.acceptanceAt != b.acceptanceAt)
  }

  /** What ranks a record's source: the fields it supplies, then its asset. */
  datatype Key = Key(exact: bool, report: bool, document: bool, asset: Asset)

  function SourceKey(r: Record): Key {
    Key(r.exact, r.reportDate.Some?, r.document != "", r.source)
  }

  predicate AssetBefore(a: Asset, b: Asset) {
    if a.current != b.current then a.current
    else if a.retrievedAt != b.retrievedAt then a.retrievedAt < b.retrievedAt
    else if a.availableAt != b.availableAt then a.availableAt < b.availableAt
    else a.pk < b.pk
  }

  predicate Before(a: Key, b: Key) {
    if a.exact != b.exact then a.exact
    else if a.report != b.report then a.report
    else if a.document != b.document then a.document
    else AssetBefore(a.asset, b.asset)
  }

  /** `min` over the pair keeps the first of equals. */
  function SourceOwner(existing: Record, incoming: Record): Record {
    if Before(SourceKey(incoming), SourceKey(existing)) then incoming else existing
  }

  function AcceptanceOwner(existing: Record, incoming: Record): Record {
    if existing.exact then existing else if incoming.exact then incoming else existing
  }

  /** `_merge_filing_records`; None is the conflict error. */
  function Merge(existing: Record, incoming: Record): Option<Record> {
    if Conflict(existing, incoming) then None
    else
      var acceptance := AcceptanceOwner(existing, incoming);
      Some(Record(
        existing.accession, existing.filingDate, acceptance.exact, acceptance.acceptanceAt, existing.form,
        if existing.reportDate.Some? then existing.reportDate else incoming.reportDate,
        if existing.document != "" then existing.document else incoming.document,
        SourceOwner(existing, incoming).source))
  }

  // ---------------------------------------------------------------------
  // The same, field by field
  // ---------------------------------------------------------------------

  /** The current snapshot comes first, then the earlier retrieval, the earlier
      availability, and the smaller primary key. */
  predicate AssetFirst(a: Asset, b: Asset) {
    || (a.current && !b.current)
    || (a.current == b.current && a.retrievedAt < b.retrievedAt)
    || (a.current == b.current && a.retrievedAt == b.retrievedAt && a.availableAt < b.availableAt)
    || (a.current == b.current && a.retrievedAt == b.retrievedAt && a.availableAt == b.availableAt && a.pk < b.pk)
  }

  /** An exact acceptance comes first, then a report date, then a document, then the asset. */
  predicate RecordFirst(a: Record, b: Record) {
    || (a.exact && !b.exact)
    || (a.exact == b.exact && a.reportDate.Some? && b.reportDate.None?)
    || (a.exact == b.exact && a.reportDate.Some? == b.reportDate.Some? && a.document != "" && b.document == "")
    || (a.exact == b.exact && a.reportDate.Some? == b.reportDate.Some? && (a.document == "" <==> b.document == "")
        && AssetFirst(a.source, b.source))
  }

  /** The records disagree on a date or a form, or on something both supply. */
  predicate Disagree(a: Record, b: Record) {
    || a.filingDate != b.filingDate || a.form != b.form
    || (a.reportDate.Some? && b.reportDate.Some? && a.reportDate.value != b.reportDate.value)
    || (|a.document| > 0 && |b.document| > 0 && a.document != b.document)
    || (a.exact && b.exact && a.acceptanceAt != b.acceptanceAt)
  }

  lemma RanksByFields(a: Record, b: Record)
    ensures AssetBefore(a.source, b.source) <==> AssetFirst(a.source, b.source)
    ensures Before(SourceKey(a), SourceKey(b)) <==> RecordFirst(a, b)
    ensures Conflict(a, b) <==> Disagree(a, b)
  {
  }

  /** What two records merge to: what either supplies, the exact acceptance if one
      is exact, and the source of the record that comes first. */
  predicate MergesTo(a: Record, b: Record, m: Record) {
    && m.accession == a.accession && m.filingDate == a.filingDate && m.form == a.form
    && (m.exact <==> a.exact || b.exact)
    && (a.exact || !b.exact ==> m.acceptanceAt == a.acceptanceAt)
    && (b.exact && !a.exact ==> m.acceptanceAt == b.acceptanceAt)
    && (a.reportDate.Some? ==> m.reportDate == a.reportDate)
    && (a.reportDate.None? ==> m.reportDate == b.reportDate)
    && (a.document != "" ==> m.document == a.document) && (a.document == "" ==> m.document == b.document)
    && (RecordFirst(b, a) ==> m.source == b.source) && (!RecordFirst(b, a) ==> m.source == a.source)
  }

  lemma MergeByFields(a: Record, b: Record)
    ensures Merge(a, b).None? <==> Disagree(a, b)
    ensures Merge(a, b).Some? ==> MergesTo(a, b, Merge(a, b).value)
  {
    RanksByFields(a, b);
    RanksByFields(b, a);
  }

  // ---------------------------------------------------------------------
  // Folding one accession
  // ---------------------------------------------------------------------

  function Fold(records: seq<Record>): Option<Record>
    requires records != []
  {
    if |records| == 1 then Some(records[0])
    else
      match Fold(records[..|records| - 1])
      case None => None
      case Some(merged) => Merge(merged, records[|records| - 1])
  }

  ghost predicate SomeConflict(records: seq<Record>) {
    exists a, b :: a in records && b in records && Conflict(a, b)
  }

  /** `m` carries exactly what the records supply between them. */
  ghost predicate Summarises(m: Record, records: seq<Record>, nextDay: Date -> Instant) {
    && (forall r :: r in records ==> !Conflict(m, r))
    && (m.reportDate.Some? ==> exists r :: r in records && r.reportDate == m.reportDate)
    && (m.document != "" ==> exists r :: r in records && r.document == m.document)
    && (m.exact ==> exists r :: r in records && r.exact && r.acceptanceAt == m.acceptanceAt)
    && (forall r :: r in records ==>
         && (r.reportDate.Some? ==> m.reportDate.Some?)
         && (r.document != "" ==> m.document != "")
         && (r.exact ==> m.exact))
    && Derived(m, nextDay)
  }

  ghost predicate AllDerived(records: seq<Record>, nextDay: Date -> Instant) {
    forall r :: r in records ==> Derived(r, nextDay)
  }

  lemma MergeSummarises(merged: Record, front: seq<Record>, last: Record, nextDay: Date -> Instant)
    requires Summarises(merged, front, nextDay) && front != [] && Derived(last, nextDay)
    ensures Conflict(merged, last) <==> exists r :: r in front && Conflict(r, last)
    ensures !Conflict(merged, last) ==> Summarises(Merge(merged, last).value, front + [last], nextDay)
  {
    assert front[0] in front;
    if Conflict(merged, last) {
      ConflictReaches(merged, front, last, nextDay);
    } else {
      SummaryGrows(merged, front, last, nextDay);
    }
  }

  lemma ConflictReaches(merged: Record, front: seq<Record>, last: Record, nextDay: Date -> Instant)
    requires Summarises(merged, front, nextDay) && front != [] && Conflict(merged, last)
    ensures exists r :: r in front && Conflict(r, last)
  {
    assert front[0] in front && !Conflict(merged, front[0]);
    if merged.filingDate != last.filingDate || merged.form != last.form {
      assert Conflict(front[0], last);
    } else if merged.reportDate.Some? && last.reportDate.Some? && merged.reportDate != last.reportDate {
      var r :| r in front && r.reportDate == merged.reportDate;
      assert Conflict(r, last);
    } else if merged.document != "" && last.document != "" && merged.document != last.document {
      var r :| r in front && r.document == merged.document;
      assert Conflict(r, last);
    } else {
      var r :| r in front && r.exact && r.acceptanceAt == merged.acceptanceAt;
      assert Conflict(r, last);
    }
  }

  lemma SummaryGrows(merged: Record, front: seq<Record>, last: Record, nextDay: Date -> Instant)
    requires Summarises(merged, front, nextDay) && Derived(last, nextDay) && !Conflict(merged, last)
    ensures forall r :: r in front ==> !Conflict(r, last)
    ensures Summarises(Merge(merged, last).value, front + [last], nextDay)
  {
    var all := front + [last];
    assert last in all && forall r :: r in front ==> r in all;
    SuppliedBySome(merged, front, last, nextDay);
    forall r | r in all
      ensures !Conflict(Merge(merged, last).value, r)
    {
      if r in front {
        assert !Conflict(merged, r);
      }
    }
  }

  /** Each merged value was supplied by one of the records. */
  lemma SuppliedBySome(merged: Record, front: seq<Record>, last: Record, nextDay: Date -> Instant)
    requires Summarises(merged, front, nextDay) && !Conflict(merged, last)
    ensures var m := Merge(merged, last).value;
      var all := front + [last];
      && (m.reportDate.Some? ==> exists r :: r in all && r.reportDate == m.reportDate)
      && (m.document != "" ==> exists r :: r in all && r.document == m.document)
      && (m.exact ==> exists r :: r in all && r.exact && r.acceptanceAt == m.acceptanceAt)
  {
    var all := front + [last];
    assert last in all && forall r :: r in front ==> r in all;
    if merged.reportDate.Some? {
      var r :| r in front && r.reportDate == merged.reportDate;
      assert r in all;
    }
    if merged.document != "" {
      var r :| r in front && r.document == merged.document;
      assert r in all;
    }
    if merged.exact {
      var r :| r in front && r.exact && r.acceptanceAt == merged.acceptanceAt;
      assert r in all;
    }
  }

  lemma {:induction false} FoldSummarises(records: seq<Record>, nextDay: Date -> Instant)
    requires records != [] && AllDerived(records, nextDay)
    ensures Fold(records).None? <==> SomeConflict(records)
    ensures Fold(records).Some? ==> Summarises(Fold(records).value, records, nextDay)
  {
    if |records| > 1 {
      var front := records[..|records| - 1];
      var last := records[|records| - 1];
      assert records == front + [last];
      FoldSummarises(front, nextDay);
      ConflictGrows(front, last);
      if Fold(front).Some? {
        MergeSummarises(Fold(front).value, front, last, nextDay);
      }
    }
  }

  lemma ConflictGrows(front: seq<Record>, last: Record)
    ensures SomeConflict(front + [last]) <==> SomeConflict(front) || exists r :: r in front && Conflict(r, last)
  {
    var all := front + [last];
    if SomeConflict(all) {
      var a, b :| a in all && b in all && Conflict(a, b);
      assert a in front || a == last;
      assert b in front || b == last;
      assert Conflict(b, a);
    }
    if r :| r in front && Conflict(r, last) {
      assert r in all && last in all;
    }
    if SomeConflict(front) {
      var a, b :| a in front && b in front && Conflict(a, b);
      assert a in all && b in all;
    }
  }

  /** Folding an accession fails exactly when two of its records conflict. */
  lemma FoldFailsExactly(records: seq<Record>, nextDay: Date -> Instant)
    requires records != [] && AllDerived(records, nextDay)
    ensures Fold(records).None? <==> SomeConflict(records)
  {
    FoldSummarises(records, nextDay);
  }

  /** What a fold carries, in the records' own fields. */
  ghost predicate CarriesAll(m: Record, records: seq<Record>, nextDay: Date -> Instant) {
    && (forall r :: r in records ==> m.filingDate == r.filingDate && m.form == r.form)
    && (forall d :: m.reportDate == Some(d) <==> exists r :: r in records && r.reportDate == Some(d))
    && (forall w :: |w| > 0 ==> (m.document == w <==> exists r :: r in records && r.document == w))
    && (forall r :: r in records && r.exact ==> m.exact && m.acceptanceAt == r.acceptanceAt)
    && ((forall r :: r in records ==> !r.exact) ==> !m.exact && m.acceptanceAt == nextDay(m.filingDate))
  }

  /** Records fold exactly when no two of them disagree, and then into what they
      supply between them. */
  lemma FoldByFields(records: seq<Record>, nextDay: Date -> Instant)
    requires records != [] && forall r :: r in records && !r.exact ==> r.acceptanceAt == nextDay(r.filingDate)
    ensures Fold(records).None? <==> exists a, b :: a in records && b in records && Disagree(a, b)
    ensures Fold(records).Some? ==> CarriesAll(Fold(records).value, records, nextDay)
    ensures Fold(records).Some? ==> Fold(records).value.accession == records[0].accession
  {
    FoldSummarises(records, nextDay);
    forall a, b ensures Conflict(a, b) <==> Disagree(a, b) {
      RanksByFields(a, b);
    }
    if SomeConflict(records) {
      var a, b :| a in records && b in records && Conflict(a, b);
      assert Disagree(a, b);
    }
    if a, b :| a in records && b in records && Disagree(a, b) {
      assert Conflict(a, b);
    }
    if Fold(records).Some? {
      SummaryCarries(Fold(records).value, records, nextDay);
      FoldKeepsAccession(records);
    }
  }

  lemma SummaryCarries(m: Record, records: seq<Record>, nextDay: Date -> Instant)
    requires Summarises(m, records, nextDay)
    ensures CarriesAll(m, records, nextDay)
  {
    forall r | r in records
      ensures m.filingDate == r.filingDate && m.form == r.form
      ensures r.reportDate.Some? ==> m.reportDate == r.reportDate
      ensures r.document != "" ==> m.document == r.document
      ensures r.exact ==> m.exact && m.acceptanceAt == r.acceptanceAt
    {
      assert !Conflict(m, r);
    }
  }

  lemma {:induction false} FoldKeepsAccession(records: seq<Record>)
    requires records != [] && Fold(records).Some?
    ensures Fold(records).value.accession == records[0].accession
  {
    if |records| > 1 {
      FoldKeepsAccession(records[..|records| - 1]);
    }
  }

  ghost predicate SameRecords(a: seq<Record>, b: seq<Record>) {
    forall r :: r in a <==> r in b
  }

  /** Equal but for the source asset, and for the accession they share. */
  predicate EqualButSource(m: Record, n: Record) {
    m == n.(source := m.source, accession := m.accession)
  }

  lemma SummariesAgree(m: Record, n: Record, records: seq<Record>, nextDay: Date -> Instant)
    requires records != [] && Summarises(m, records, nextDay) && Summarises(n, records, nextDay)
    ensures EqualButSource(m, n)
  {
    assert records[0] in records && !Conflict(m, records[0]) && !Conflict(n, records[0]);
  }

  lemma SummaryOfSame(m: Record, a: seq<Record>, b: seq<Record>, nextDay: Date -> Instant)
    requires SameRecords(a, b) && Summarises(m, b, nextDay)
    ensures Summarises(m, a, nextDay)
  {
  }

  /** Whether it fails, and every field but the source asset, is independent of
      the order of the records. */
  lemma FoldIgnoresOrder(a: seq<Record>, b: seq<Record>, nextDay: Date -> Instant)
    requires a != [] && b != [] && AllDerived(a, nextDay) && SameRecords(a, b)
    ensures Fold(a).None? <==> Fold(b).None?
    ensures Fold(a).Some? ==> EqualButSource(Fold(a).value, Fold(b).value)
  {
    FoldSummarises(a, nextDay);
    FoldSummarises(b, nextDay);
    if Fold(a).Some? {
      SummaryOfSame(Fold(b).value, a, b, nextDay);
      SummariesAgree(Fold(a).value, Fold(b).value, a, nextDay);
    }
  }

  // ---------------------------------------------------------------------
  // The two indexes
  // ---------------------------------------------------------------------

  function AccessionOf(r: Record): nat { r.accession }

  function Group(records: seq<Record>, accession: nat): seq<Record> {
    Filter(records, AccessionOf, accession)
  }

  /** What an accession's records amount to: none, one merged record, a conflict. */
  datatype State = Missing | Kept(record: Record) | Conflicted

  function StateOf(records: seq<Record>, accession: nat): State {
    if Group(records, accession) == [] then Missing
    else match Fold(Group(records, accession))
      case None => Conflicted
      case Some(merged) => Kept(merged)
  }

  predicate Shows(index: map<nat, Record>, ambiguous: set<nat>, a: nat, state: State) {
    match state
    case Missing => a !in index && a !in ambiguous
    case Kept(record) => a in index && index[a] == record && a !in ambiguous
    case Conflicted => a !in index && a in ambiguous
  }

  /** Exactly the accessions that fold are indexed, by their fold; exactly the
      ones that do not are ambiguous. */
  ghost predicate IndexHolds(records: seq<Record>, index: map<nat, Record>, ambiguous: set<nat>) {
    forall a: nat :: Shows(index, ambiguous, a, StateOf(records, a))
  }

  function Advance(state: State, r: Record): State {
    match state
    case Missing => Kept(r)
    case Conflicted => Conflicted
    case Kept(m) => if Merge(m, r).Some? then Kept(Merge(m, r).value) else Conflicted
  }

  lemma FoldNext(before: seq<Record>, r: Record)
    ensures Fold(before + [r]) ==
      if before == [] then Some(r)
      else if Fold(before).None? then None
      else Merge(Fold(before).value, r)
  {
    assert (before + [r])[..|before|] == before;
  }

  lemma NextState(records: seq<Record>, i: nat, a: nat)
    requires i < |records|
    ensures StateOf(records[..i + 1], a) ==
      if records[i].accession == a then Advance(StateOf(records[..i], a), records[i]) else StateOf(records[..i], a)
  {
    assert records[..i + 1][..i] == records[..i];
    FoldNext(Group(records[..i], a), records[i]);
  }

  /** The table advances by changing only the entry of the record's accession. */
  lemma NextIndex(records: seq<Record>, i: nat, index: map<nat, Record>, ambiguous: set<nat>,
                  later: map<nat, Record>, nowAmbiguous: set<nat>)
    requires i < |records| && IndexHolds(records[..i], index, ambiguous)
    requires forall a :: a != records[i].accession ==>
      (a in index <==> a in later) && (a in index ==> index[a] == later[a]) && (a in ambiguous <==> a in nowAmbiguous)
    requires Shows(later, nowAmbiguous, records[i].accession,
      Advance(StateOf(records[..i], records[i].accession), records[i]))
    ensures IndexHolds(records[..i + 1], later, nowAmbiguous)
  {
    var longer := records[..i + 1];
    forall a: nat
      ensures Shows(later, nowAmbiguous, a, StateOf(longer, a))
    {
      NextState(records, i, a);
      assert Shows(index, ambiguous, a, StateOf(records[..i], a));
    }
  }

  /** `_inspection_filing_index`. */
  method InspectionFilingIndex(records: seq<Record>) returns (index: map<nat, Record>, ambiguous: set<nat>)
    ensures IndexHolds(records, index, ambiguous)
  {
    index, ambiguous := map[], {};
    var i: nat := 0;
    while i < |records|
      invariant i <= |records|
      invariant IndexHolds(records[..i], index, ambiguous)
    {
      var record := records[i];
      ghost var index0, ambiguous0 := index, ambiguous;
      assert Shows(index, ambiguous, record.accession, StateOf(records[..i], record.accession));
      if record.accession !in ambiguous {
        if record.accession !in index {
          index := index[record.accession := record];
        } else {
          var merged := Merge(index[record.accession], record);
          if merged.Some? {
            index := index[record.accession := merged.value];
          } else {
            index := index - {record.accession};
            ambiguous := ambiguous + {record.accession};
          }
        }
      }
      NextIndex(records, i, index0, ambiguous0, index, ambiguous);
      i := i + 1;
    }
    assert records[..|records|] == records;
  }

  datatype IndexError = FilingConflict(accession: nat)

  ghost predicate StrictHolds(records: seq<Record>, result: Result<map<nat, Record>, IndexError>) {
    match result
    case Ok(index) => IndexHolds(records, index, {})
    case Err(FilingConflict(a)) => StateOf(records, a) == Conflicted
  }

  lemma {:induction false} AmbiguityLasts(records: seq<Record>, i: nat, a: nat)
    requires i <= |records| && StateOf(records[..i], a) == Conflicted
    ensures StateOf(records, a) == Conflicted
    decreases |records| - i
  {
    if i == |records| {
      assert records[..i] == records;
    } else {
      NextState(records, i, a);
      AmbiguityLasts(records, i + 1, a);
    }
  }

  /** `_filing_index`: the first conflict leaves the loop. */
  method FilingIndex(records: seq<Record>) returns (result: Result<map<nat, Record>, IndexError>)
    ensures StrictHolds(records, result)
  {
    var index: map<nat, Record> := map[];
    var i: nat := 0;
    while i < |records|
      invariant i <= |records|
      invariant IndexHolds(records[..i], index, {})
    {
      var record := records[i];
      ghost var index0 := index;
      assert Shows(index, {}, record.accession, StateOf(records[..i], record.accession));
      if record.accession !in index {
        index := index[record.accession := record];
      } else {
        var merged := Merge(index[record.accession], record);
        if merged.None? {
          NextState(records, i, record.accession);
          AmbiguityLasts(records, i + 1, record.accession);
          return Err(FilingConflict(record.accession));
        }
        index := index[record.accession := merged.value];
      }
      NextIndex(records, i, index0, {}, index, {});
      i := i + 1;
    }
    assert records[..|records|] == records;
    return Ok(index);
  }

  /** The strict index raises exactly when the tolerant one reports an ambiguous
      accession, and otherwise they are the same index. */
  lemma StrictAndTolerantAgree(records: seq<Record>, strict: Result<map<nat, Record>, IndexError>,
                               index: map<nat, Record>, ambiguous: set<nat>)
    requires StrictHolds(records, strict) && IndexHolds(records, index, ambiguous)
    ensures strict.Err? <==> exists a :: a in ambiguous
    ensures strict.Ok? ==> strict.value == index
    ensures strict.Err? ==> strict.error.accession in ambiguous
  {
    if strict.Ok? {
      forall a: nat
        ensures a in strict.value <==> a in index
        ensures a in index ==> strict.value[a] == index[a]
        ensures a !in ambiguous
      {
        assert Shows(strict.value, {}, a, StateOf(records, a));
        assert Shows(index, ambiguous, a, StateOf(records, a));
      }
    } else {
      assert Shows(index, ambiguous, strict.error.accession, StateOf(records, strict.error.accession));
    }
  }

  // ---------------------------------------------------------------------
  // The two indexes, record by record
  // ---------------------------------------------------------------------

  ghost predicate Reported(records: seq<Record>, accession: nat) {
    exists r :: r in records && r.accession == accession
  }

  /** Two records of the accession disagree. */
  ghost predicate Disputed(records: seq<Record>, accession: nat) {
    exists a, b :: a in records && b in records && a.accession == accession && b.accession == accession
      && Disagree(a, b)
  }

  ghost predicate InstantsFollow(records: seq<Record>, nextDay: Date -> Instant) {
    forall r :: r in records && !r.exact ==> r.acceptanceAt == nextDay(r.filingDate)
  }

  /** The entry of an accession carries what its records supply between them. */
  ghost predicate EntryOf(m: Record, records: seq<Record>, accession: nat, nextDay: Date -> Instant) {
    && m.accession == accession
    && (forall r :: r in records && r.accession == accession ==>
          && m.filingDate == r.filingDate && m.form == r.form
          && (r.reportDate.Some? ==> m.reportDate == r.reportDate) && (r.document != "" ==> m.document == r.document)
          && (r.exact ==> m.exact && m.acceptanceAt == r.acceptanceAt))
    && (!m.exact ==> m.acceptanceAt == nextDay(m.filingDate))
  }

  lemma StateByRecords(records: seq<Record>, accession: nat, nextDay: Date -> Instant)
    requires InstantsFollow(records, nextDay)
    ensures match StateOf(records, accession)
      case Missing => !Reported(records, accession) && !Disputed(records, accession)
      case Conflicted => Disputed(records, accession)
      case Kept(m) =>
        Reported(records, accession) && !Disputed(records, accession) && EntryOf(m, records, accession, nextDay)
  {
    var own := Group(records, accession);
    FilterMembers(records, AccessionOf, accession);
    if own != [] {
      assert own[0] in own;
      FoldByFields(own, nextDay);
    }
    forall r ensures r in own <==> r in records && r.accession == accession {
      assert AccessionOf(r) == r.accession;
    }
  }

  /** The tolerant index holds exactly the reported accessions whose records agree,
      and sets exactly the disputed ones aside. */
  lemma IndexByRecords(records: seq<Record>, index: map<nat, Record>, ambiguous: set<nat>, nextDay: Date -> Instant)
    requires InstantsFollow(records, nextDay) && IndexHolds(records, index, ambiguous)
    ensures forall a: nat :: a in ambiguous <==> Disputed(records, a)
    ensures forall a: nat :: a in index <==> Reported(records, a) && !Disputed(records, a)
    ensures forall a: nat :: a in index ==> EntryOf(index[a], records, a, nextDay)
  {
    forall a: nat
      ensures a in ambiguous <==> Disputed(records, a)
      ensures a in index <==> Reported(records, a) && !Disputed(records, a)
      ensures a in index ==> EntryOf(index[a], records, a, nextDay)
    {
      assert Shows(index, ambiguous, a, StateOf(records, a));
      StateByRecords(records, a, nextDay);
    }
  }
}
