/** Which source asset a merged filing record names, over every order in which
    the records of one accession can be folded (sec_ingestion.py). */
module FilingSource {
  import opened Wrappers
  import opened FilingMerge

  /** For two records the source asset is order-independent. */
  lemma TwoRecordsShareSource(a: Record, b: Record)
    ensures Merge(a, b).None? <==> Merge(b, a).None?
    ensures Merge(a, b).Some? ==> Merge(a, b).value.source == Merge(b, a).value.source
  {
  }

  // ---------------------------------------------------------------------
  // Ranking keys under merges
  // ---------------------------------------------------------------------

  /** A merge supplies what either record supplied, from the first-ranked asset. */
  function Join(a: Key, b: Key): Key {
    Key(a.exact || b.exact, a.report || b.report, a.document || b.document,
        if Before(b, a) then b.asset else a.asset)
  }

  function JoinAll(records: seq<Record>): Key
    requires records != []
  {
    if |records| == 1 then SourceKey(records[0])
    else Join(JoinAll(records[..|records| - 1]), SourceKey(records[|records| - 1]))
  }

  lemma {:induction false} FoldKey(records: seq<Record>)
    requires records != [] && Fold(records).Some?
    ensures SourceKey(Fold(records).value) == JoinAll(records)
  {
    if |records| > 1 {
      FoldKey(records[..|records| - 1]);
    }
  }

  predicate Covers(a: Key, b: Key) {
    (b.exact ==> a.exact) && (b.report ==> a.report) && (b.document ==> a.document)
  }

  /** `k` supplies every field that one of the records supplies. */
  ghost predicate Complete(k: Key, records: seq<Record>) {
    forall r :: r in records ==> Covers(k, SourceKey(r))
  }

  /** The merge of all ranks no later than any of the records, and is complete. */
  lemma {:induction false} JoinRanksFirst(records: seq<Record>, r: Record)
    requires r in records
    ensures !Before(SourceKey(r), JoinAll(records)) && Covers(JoinAll(records), SourceKey(r))
  {
    if |records| > 1 {
      var front := records[..|records| - 1];
      if r in front {
        JoinRanksFirst(front, r);
      }
    }
  }

  lemma JoinIsComplete(records: seq<Record>)
    requires records != []
    ensures Complete(JoinAll(records), records)
  {
    forall r | r in records ensures Covers(JoinAll(records), SourceKey(r)) {
      JoinRanksFirst(records, r);
    }
  }

  lemma JoinNext(records: seq<Record>, r: Record)
    requires records != []
    ensures JoinAll(records + [r]) == Join(JoinAll(records), SourceKey(r))
  {
    assert (records + [r])[..|records|] == records;
  }

  // ---------------------------------------------------------------------
  // Three records are enough
  // ---------------------------------------------------------------------

  function JoinThree(x: Key, y: Key, z: Key): Key {
    Join(Join(x, y), z)
  }

  /** `m` is the merge of three of the records, in some order and with repeats. */
  ghost predicate MergeOfThree(m: Key, records: seq<Record>) {
    exists x, y, z :: IsThree(m, records, x, y, z)
  }

  ghost predicate IsThree(m: Key, records: seq<Record>, x: Record, y: Record, z: Record) {
    x in records && y in records && z in records && m == JoinThree(SourceKey(x), SourceKey(y), SourceKey(z))
  }

  predicate EndsWith(m: Key, owner: Key, x: Key, y: Key) {
    m == JoinThree(owner, x, y) || m == JoinThree(owner, y, x)
  }

  predicate OwnedBy(m: Key, owner: Key, x: Key, y: Key, z: Key) {
    m == owner || EndsWith(m, owner, x, y) || EndsWith(m, owner, x, z) || EndsWith(m, owner, y, z)
  }

  /** Of four merged records one can be left out: the named one needs at most two
      others below it to collect the fields it lacks. */
  lemma FourthIsRedundant(x: Key, y: Key, z: Key, w: Key)
    ensures var m := Join(JoinThree(x, y, z), w);
      OwnedBy(m, x, y, z, w) || OwnedBy(m, y, x, z, w) || OwnedBy(m, z, x, y, w) || OwnedBy(m, w, x, y, z)
  {
  }

  lemma OwnedIsThree(m: Key, records: seq<Record>, owner: Record, x: Record, y: Record, z: Record)
    requires owner in records && x in records && y in records && z in records
    requires OwnedBy(m, SourceKey(owner), SourceKey(x), SourceKey(y), SourceKey(z))
    ensures MergeOfThree(m, records)
  {
    assert IsThree(m, records, owner, owner, owner) || IsThree(m, records, owner, x, y)
      || IsThree(m, records, owner, y, x)
        || IsThree(m, records, owner, x, z) || IsThree(m, records, owner, z, x)
        || IsThree(m, records, owner, y, z) || IsThree(m, records, owner, z, y);
  }

  /** Whatever any number of records merge to, some three of them do. */
  lemma {:induction false} ThreeSuffice(records: seq<Record>)
    requires records != []
    ensures MergeOfThree(JoinAll(records), records)
  {
    if |records| == 1 {
      assert records[0] in records;
      assert IsThree(JoinAll(records), records, records[0], records[0], records[0]);
    } else {
      var front, w := records[..|records| - 1], records[|records| - 1];
      ThreeSuffice(front);
      var x, y, z :| IsThree(JoinAll(front), front, x, y, z);
      FourthOfThem(records, x, y, z, w);
    }
  }

  lemma FourthOfThem(records: seq<Record>, x: Record, y: Record, z: Record, w: Record)
    requires x in records && y in records && z in records && w in records
    ensures MergeOfThree(Join(JoinThree(SourceKey(x), SourceKey(y), SourceKey(z)), SourceKey(w)), records)
  {
    var m := Join(JoinThree(SourceKey(x), SourceKey(y), SourceKey(z)), SourceKey(w));
    FourthIsRedundant(SourceKey(x), SourceKey(y), SourceKey(z), SourceKey(w));
    if OwnedBy(m, SourceKey(x), SourceKey(y), SourceKey(z), SourceKey(w)) {
      OwnedIsThree(m, records, x, y, z, w);
    } else if OwnedBy(m, SourceKey(y), SourceKey(x), SourceKey(z), SourceKey(w)) {
      OwnedIsThree(m, records, y, x, z, w);
    } else if OwnedBy(m, SourceKey(z), SourceKey(x), SourceKey(y), SourceKey(w)) {
      OwnedIsThree(m, records, z, x, y, w);
    } else {
      OwnedIsThree(m, records, w, x, y, z);
    }
  }

  // ---------------------------------------------------------------------
  // Orders
  // ---------------------------------------------------------------------

  ghost predicate Reorders(p: seq<Record>, records: seq<Record>) {
    multiset(p) == multiset(records)
  }

  lemma ReorderedMembers(p: seq<Record>, records: seq<Record>)
    requires Reorders(p, records)
    ensures SameRecords(p, records) && |p| == |records|
  {
    assert |multiset(p)| == |p| && |multiset(records)| == |records|;
    forall r ensures r in p <==> r in records {
      assert r in p <==> r in multiset(p);
      assert r in records <==> r in multiset(records);
    }
  }

  /** `lead` then `rest` is an order of the records, and `lead` merges to `m`. */
  ghost predicate LedBy(m: Key, lead: seq<Record>, rest: seq<Record>, records: seq<Record>) {
    lead != [] && Reorders(lead + rest, records) && JoinAll(lead) == m
  }

  /** A further record joins the lead, unless it is in it already and so adds nothing. */
  lemma LeadGrows(m: Key, lead: seq<Record>, rest: seq<Record>, records: seq<Record>, r: Record)
    returns (longer: seq<Record>, fewer: seq<Record>)
    requires LedBy(m, lead, rest, records) && r in records
    ensures LedBy(Join(m, SourceKey(r)), longer, fewer, records)
  {
    ReorderedMembers(lead + rest, records);
    if r in rest {
      var i :| 0 <= i < |rest| && rest[i] == r;
      longer, fewer := lead + [r], rest[..i] + rest[i + 1..];
      JoinNext(lead, r);
      assert rest == rest[..i] + [r] + rest[i + 1..];
      assert multiset(longer + fewer) == multiset(lead + rest);
    } else {
      longer, fewer := lead, rest;
      JoinRanksFirst(lead, r);
    }
  }

  lemma LeadStarts(records: seq<Record>, r: Record) returns (rest: seq<Record>)
    requires r in records
    ensures LedBy(SourceKey(r), [r], rest, records)
  {
    var i :| 0 <= i < |records| && records[i] == r;
    rest := records[..i] + records[i + 1..];
    assert records == records[..i] + [r] + records[i + 1..];
    assert multiset([r] + rest) == multiset(records);
  }

  /** Every merge of three records begins some order of all of them. */
  lemma ThreeLead(m: Key, records: seq<Record>) returns (lead: seq<Record>, rest: seq<Record>)
    requires MergeOfThree(m, records)
    ensures LedBy(m, lead, rest, records)
  {
    var x, y, z :| IsThree(m, records, x, y, z);
    rest := LeadStarts(records, x);
    lead, rest := LeadGrows(SourceKey(x), [x], rest, records, y);
    lead, rest := LeadGrows(Join(SourceKey(x), SourceKey(y)), lead, rest, records, z);
  }

  lemma TakesOver(m: Key, r: Record, records: seq<Record>)
    requires Complete(m, records) && r in records
    ensures var longer := Join(m, SourceKey(r));
      && !Before(m, longer) && Complete(longer, records)
      && (longer == m || (Complete(SourceKey(r), records) && longer == SourceKey(r)))
  {
    if Before(SourceKey(r), m) {
      assert Join(m, SourceKey(r)) == SourceKey(r);
    }
  }

  /** After a complete merge only a complete record can take over the source. */
  lemma {:induction false} RestAfterComplete(lead: seq<Record>, rest: seq<Record>, records: seq<Record>)
    requires lead != [] && Complete(JoinAll(lead), records) && forall r :: r in rest ==> r in records
    ensures !Before(JoinAll(lead), JoinAll(lead + rest)) && Complete(JoinAll(lead + rest), records)
    ensures JoinAll(lead + rest).asset == JoinAll(lead).asset ||
      exists r :: r in rest && Complete(SourceKey(r), records) && r.source == JoinAll(lead + rest).asset
  {
    if rest == [] {
      assert lead + rest == lead;
    } else {
      var front, r := rest[..|rest| - 1], rest[|rest| - 1];
      assert lead + rest == lead + front + [r];
      RestAfterComplete(lead, front, records);
      JoinNext(lead + front, r);
      TakesOver(JoinAll(lead + front), r, records);
      assert r in rest && forall w :: w in front ==> w in rest;
    }
  }

  // ---------------------------------------------------------------------
  // When one source is named in every order
  // ---------------------------------------------------------------------

  /** Every order of the records folds, and all folds name one source asset. */
  ghost predicate OneSourceInEveryOrder(records: seq<Record>) {
    forall p, q :: Reorders(p, records) && Reorders(q, records) ==> NameOneSource(p, q)
  }

  ghost predicate NameOneSource(p: seq<Record>, q: seq<Record>) {
    && p != [] && q != [] && Fold(p).Some? && Fold(q).Some?
    && Fold(p).value.source == Fold(q).value.source
  }

  /** Each merge of three of the records that supplies all they supply between
      them names r's source or ranks after r. */
  ghost predicate Settles(r: Record, records: seq<Record>) {
    forall m :: MergeOfThree(m, records) && Complete(m, records) ==> m.asset == r.source || Before(SourceKey(r), m)
  }

  ghost predicate Agreeing(records: seq<Record>, nextDay: Date -> Instant) {
    records != [] && AllDerived(records, nextDay) && !SomeConflict(records)
  }

  lemma ReorderedFolds(p: seq<Record>, records: seq<Record>, nextDay: Date -> Instant)
    requires Agreeing(records, nextDay) && Reorders(p, records)
    ensures p != [] && SameRecords(p, records) && Fold(p).Some? && Fold(p).value.source == JoinAll(p).asset
  {
    ReorderedMembers(p, records);
    FoldFailsExactly(records, nextDay);
    FoldIgnoresOrder(records, p, nextDay);
    FoldKey(p);
  }

  lemma SettledByOne(r: Record, p: seq<Record>, records: seq<Record>)
    requires r in records && Settles(r, records) && p != [] && SameRecords(p, records)
    ensures JoinAll(p).asset == r.source
  {
    ThreeSuffice(p);
    var x, y, z :| IsThree(JoinAll(p), p, x, y, z);
    assert IsThree(JoinAll(p), records, x, y, z);
    JoinIsComplete(p);
    JoinRanksFirst(p, r);
  }

  /** A record with the common source settles it: one that supplies everything
      where there is one, and any other where there is none. */
  lemma FindSettling(records: seq<Record>, source: Asset) returns (r: Record)
    requires exists w :: w in records && w.source == source
    ensures r in records && r.source == source
    ensures Complete(SourceKey(r), records) ||
      forall w :: w in records && w.source == source ==> !Complete(SourceKey(w), records)
  {
    if w :| w in records && w.source == source && Complete(SourceKey(w), records) {
      r := w;
    } else {
      r :| r in records && r.source == source;
    }
  }

  /** Every order of the records merges to this source. */
  ghost predicate AlwaysNames(records: seq<Record>, source: Asset) {
    forall p :: Reorders(p, records) ==> p != [] && JoinAll(p).asset == source
  }

  lemma LedToSource(m: Key, records: seq<Record>, r: Record)
    requires r in records && AlwaysNames(records, r.source)
    requires Complete(SourceKey(r), records) ||
      forall w :: w in records && w.source == r.source ==> !Complete(SourceKey(w), records)
    requires MergeOfThree(m, records) && Complete(m, records)
    ensures m.asset == r.source || Before(SourceKey(r), m)
  {
    var lead, rest := ThreeLead(m, records);
    var whole := lead + rest;
    ReorderedMembers(whole, records);
    assert JoinAll(whole).asset == r.source;
    assert Complete(JoinAll(lead), records);
    RestAfterComplete(lead, rest, records);
    if Complete(SourceKey(r), records) {
      SameFields(m, records, r);
      MergedFields(whole, records, r);
    }
  }

  predicate EqualFields(a: Key, b: Key) {
    a.exact == b.exact && a.report == b.report && a.document == b.document
  }

  /** Complete keys that come from the records supply the same fields. */
  lemma SameFields(a: Key, records: seq<Record>, r: Record)
    requires MergeOfThree(a, records) && Complete(a, records)
    requires r in records && Complete(SourceKey(r), records)
    ensures EqualFields(a, SourceKey(r))
  {
    var x, y, z :| IsThree(a, records, x, y, z);
  }

  lemma MergedFields(p: seq<Record>, records: seq<Record>, r: Record)
    requires p != [] && SameRecords(p, records) && r in records && Complete(SourceKey(r), records)
    ensures EqualFields(JoinAll(p), SourceKey(r))
  {
    ThreeSuffice(p);
    var x, y, z :| IsThree(JoinAll(p), p, x, y, z);
    assert IsThree(JoinAll(p), records, x, y, z);
    JoinIsComplete(p);
    SameFields(JoinAll(p), records, r);
  }

  lemma SourceOfSome(records: seq<Record>)
    requires records != []
    ensures exists w :: w in records && w.source == JoinAll(records).asset
  {
    ThreeSuffice(records);
    var x, y, z :| IsThree(JoinAll(records), records, x, y, z);
  }

  lemma SettledAlwaysNames(records: seq<Record>, r: Record)
    requires r in records && Settles(r, records)
    ensures AlwaysNames(records, r.source)
  {
    forall p | Reorders(p, records) ensures p != [] && JoinAll(p).asset == r.source {
      ReorderedMembers(p, records);
      SettledByOne(r, p, records);
    }
  }

  lemma AlwaysNamedSettles(records: seq<Record>)
    requires records != [] && AlwaysNames(records, JoinAll(records).asset)
    ensures exists r :: r in records && Settles(r, records)
  {
    SourceOfSome(records);
    var r := FindSettling(records, JoinAll(records).asset);
    forall m | MergeOfThree(m, records) && Complete(m, records)
      ensures m.asset == r.source || Before(SourceKey(r), m)
    {
      LedToSource(m, records, r);
    }
    assert Settles(r, records);
  }

  lemma OneSourceIsAlwaysNamed(records: seq<Record>, nextDay: Date -> Instant)
    requires Agreeing(records, nextDay)
    ensures OneSourceInEveryOrder(records) <==> AlwaysNames(records, JoinAll(records).asset)
  {
    assert Reorders(records, records);
    forall p | Reorders(p, records)
      ensures p != [] && Fold(p).Some? && Fold(p).value.source == JoinAll(p).asset
    {
      ReorderedFolds(p, records, nextDay);
    }
    if OneSourceInEveryOrder(records) {
      forall p | Reorders(p, records) ensures p != [] && JoinAll(p).asset == JoinAll(records).asset {
        assert NameOneSource(p, records);
      }
    }
  }

  /** Records that agree name one source in every order exactly when one of them
      settles it, which looks at merges of three records only. */
  lemma SourceIgnoresOrderExactly(records: seq<Record>, nextDay: Date -> Instant)
    requires Agreeing(records, nextDay)
    ensures OneSourceInEveryOrder(records) <==> exists r :: r in records && Settles(r, records)
  {
    OneSourceIsAlwaysNamed(records, nextDay);
    if r :| r in records && Settles(r, records) {
      SettledAlwaysNames(records, r);
      assert Reorders(records, records);
    }
    if OneSourceInEveryOrder(records) {
      AlwaysNamedSettles(records);
    }
  }

  // ---------------------------------------------------------------------
  // Three records
  // ---------------------------------------------------------------------

  /** r ranks before the merge of the other two. */
  predicate Leads(r: Record, x: Record, y: Record) {
    Before(SourceKey(r), Join(SourceKey(x), SourceKey(y)))
  }

  lemma LeaderSettles(r: Record, x: Record, y: Record, records: seq<Record>)
    requires Leads(r, x, y) && forall w :: w in records ==> w == r || w == x || w == y
    requires r in records && x in records && y in records
    ensures Settles(r, records)
  {
    forall m | MergeOfThree(m, records) && Complete(m, records)
      ensures m.asset == r.source || Before(SourceKey(r), m)
    {
      var u, v, w :| IsThree(m, records, u, v, w);
      LeaderAmong(r, x, y, u, v, w, m);
    }
  }

  lemma LeaderAmong(r: Record, x: Record, y: Record, u: Record, v: Record, w: Record, m: Key)
    requires Leads(r, x, y) && m == JoinThree(SourceKey(u), SourceKey(v), SourceKey(w))
    requires (u == r || u == x || u == y) && (v == r || v == x || v == y) && (w == r || w == x || w == y)
    requires Covers(m, SourceKey(r)) && Covers(m, SourceKey(x)) && Covers(m, SourceKey(y))
    ensures m.asset == r.source || Before(SourceKey(r), m)
  {
    LeaderWins(SourceKey(r), SourceKey(x), SourceKey(y), SourceKey(u), SourceKey(v), SourceKey(w), m);
  }

  predicate OneOfThree(k: Key, r: Key, x: Key, y: Key) {
    k == r || k == x || k == y
  }

  lemma LeaderWins(r: Key, x: Key, y: Key, u: Key, v: Key, w: Key, m: Key)
    requires Before(r, Join(x, y)) && m == JoinThree(u, v, w)
    requires OneOfThree(u, r, x, y) && OneOfThree(v, r, x, y) && OneOfThree(w, r, x, y)
    requires Covers(m, r) && Covers(m, x) && Covers(m, y)
    ensures m.asset == r.asset || Before(r, m)
  {
  }

  lemma LastLeads(r: Record, x: Record, y: Record)
    requires JoinAll([x, y, r]).asset == r.source && x.source != r.source && y.source != r.source
    ensures Leads(r, x, y)
  {
    assert [x, y, r][..2] == [x, y] && [x, y][..1] == [x];
    assert JoinAll([x, y]) == Join(SourceKey(x), SourceKey(y));
  }

  lemma AnyCanBeLast(a: Record, b: Record, c: Record)
    ensures Reorders([b, c, a], [a, b, c]) && Reorders([a, c, b], [a, b, c]) && Reorders([a, b, c], [a, b, c])
  {
    assert multiset([b, c, a]) == multiset{a, b, c} && multiset([a, c, b]) == multiset{a, b, c};
  }

  lemma SettlerLeads(a: Record, b: Record, c: Record, r: Record)
    requires r in [a, b, c] && AlwaysNames([a, b, c], r.source)
    requires a.source != b.source && a.source != c.source && b.source != c.source
    ensures Leads(a, b, c) || Leads(b, a, c) || Leads(c, a, b)
  {
    AnyCanBeLast(a, b, c);
    if r == a {
      LastLeads(a, b, c);
    } else if r == b {
      LastLeads(b, a, c);
    } else {
      LastLeads(c, a, b);
    }
  }

  lemma SomeLeaderSettles(a: Record, b: Record, c: Record)
    requires Leads(a, b, c) || Leads(b, a, c) || Leads(c, a, b)
    ensures exists r :: r in [a, b, c] && Settles(r, [a, b, c])
  {
    if Leads(a, b, c) {
      LeaderSettles(a, b, c, [a, b, c]);
    } else if Leads(b, a, c) {
      LeaderSettles(b, a, c, [a, b, c]);
    } else {
      LeaderSettles(c, a, b, [a, b, c]);
    }
  }

  /** Three agreeing records of three assets name one source in every order
      exactly when one of them ranks before the merge of the other two. */
  lemma ThreeShareSourceExactly(a: Record, b: Record, c: Record, nextDay: Date -> Instant)
    requires Agreeing([a, b, c], nextDay)
    requires a.source != b.source && a.source != c.source && b.source != c.source
    ensures OneSourceInEveryOrder([a, b, c]) <==> Leads(a, b, c) || Leads(b, a, c) || Leads(c, a, b)
  {
    SourceIgnoresOrderExactly([a, b, c], nextDay);
    if Leads(a, b, c) || Leads(b, a, c) || Leads(c, a, b) {
      SomeLeaderSettles(a, b, c);
    }
    if r :| r in [a, b, c] && Settles(r, [a, b, c]) {
      SettledAlwaysNames([a, b, c], r);
      SettlerLeads(a, b, c, r);
    }
  }

  /** No record of these three leads, so the order of the merges decides which
      asset is named: a merged record borrows fields into its own ranking key. */
  lemma ThreeRecordsCanDiffer()
    ensures exists a: Record, b: Record, c: Record, nextDay: Date -> Instant ::
      && Agreeing([a, b, c], nextDay) && a.source != b.source && a.source != c.source && b.source != c.source
      && !Leads(a, b, c) && !Leads(b, a, c) && !Leads(c, a, b)
      && !OneSourceInEveryOrder([a, b, c])
  {
    var nextDay := (d: Date) => 9;
    var a := Record(0, 0, true, 5, "10-K", None, "", Asset(1, false, 0, 0));
    var b := Record(0, 0, false, 9, "10-K", Some(3), "m", Asset(2, false, 0, 0));
    var c := Record(0, 0, true, 5, "10-K", Some(3), "", Asset(3, false, 0, 0));
    assert Agreeing([a, b, c], nextDay);
    ThreeShareSourceExactly(a, b, c, nextDay);
    assert !Leads(a, b, c) && !Leads(b, a, c) && !Leads(c, a, b);
  }

  // ---------------------------------------------------------------------
  // Records that supply the same fields
  // ---------------------------------------------------------------------

  /** When every record supplies the same fields the first-ranked one is named,
      in every order. */
  lemma UniformRecordsNameLeastSource(records: seq<Record>, nextDay: Date -> Instant)
    requires Agreeing(records, nextDay)
    requires forall r, w :: r in records && w in records ==>
      r.exact == w.exact && r.reportDate.Some? == w.reportDate.Some? && (r.document == "" <==> w.document == "")
    ensures OneSourceInEveryOrder(records)
    ensures Fold(records).Some? && forall r :: r in records ==> !AssetFirst(r.source, Fold(records).value.source)
  {
    assert Reorders(records, records);
    ReorderedFolds(records, records, nextDay);
    SourceOfSome(records);
    var least :| least in records && least.source == JoinAll(records).asset;
    MergedFields(records, records, least);
    forall r | r in records ensures !AssetFirst(r.source, least.source) {
      JoinRanksFirst(records, r);
      RanksByFields(r, least);
      assert EqualFields(SourceKey(r), SourceKey(least));
    }
    forall m | MergeOfThree(m, records) && Complete(m, records)
      ensures m.asset == least.source || Before(SourceKey(least), m)
    {
      var x, y, z :| IsThree(m, records, x, y, z);
      assert EqualFields(m, SourceKey(least));
    }
    assert Settles(least, records);
    SourceIgnoresOrderExactly(records, nextDay);
  }
}
