/** What a point-in-time FX conversion may rest on (fx.py), said of the stored
    rates and their clocks alone: which rates are known by the end of the valued
    date, which of them a conversion uses, and when it must be refused. */
module FxEvidence {
  import opened Wrappers
  import opened FxConversion

  /** What a converter is asked about: its store, its bounds and the valued date. */
  datatype Query = Query(rates: seq<Rate>, observationEnd: Option<Date>, grade: Grade, valueDate: Date)

  /** Before midnight at the end of the valued date, UTC. */
  predicate InTime(at: Instant, valueDate: Date) {
    at < (valueDate + 1) * 86_400_000_000
  }

  /** A positive quote of two currencies, observed and published by the end of
      the valued date. For observed evidence the file itself was held by then. */
  predicate Known(q: Query, r: Rate) {
    && r in q.rates && r.base != r.quote && r.value > 0.0
    && r.observation <= q.valueDate && (q.observationEnd.Some? ==> r.observation <= q.observationEnd.value)
    && InTime(r.publishedAt, q.valueDate)
    && (q.grade == Observed ==>
          && InTime(r.availableAt, q.valueDate)
          && InTime(r.sourceAvailableAt, q.valueDate) && InTime(r.sourceRetrievedAt, q.valueDate))
  }

  predicate Of(r: Rate, x: Currency, y: Currency, d: Date) {
    r.base == x && r.quote == y && r.observation == d
  }

  ghost predicate Quoted(q: Query, x: Currency, y: Currency, d: Date) {
    exists r :: Known(q, r) && Of(r, x, y, d)
  }

  /** The known quote that became available last. */
  ghost predicate Newest(q: Query, x: Currency, y: Currency, d: Date, r: Rate) {
    && Known(q, r) && Of(r, x, y, d)
    && forall s :: Known(q, s) && Of(s, x, y, d) ==> s.availableAt <= r.availableAt
  }

  predicate Carries(c: Candidate, r: Rate) {
    c.publishedAt == r.publishedAt && c.availableAt == r.availableAt && c.assetIds == {r.assetId}
  }

  ghost predicate ByQuote(q: Query, x: Currency, y: Currency, d: Date, c: Candidate) {
    exists r :: Newest(q, x, y, d, r) && Carries(c, r) && c.rate == r.value
  }

  /** By the opposite quote, where there is none in this direction. */
  ghost predicate ByOppositeQuote(q: Query, x: Currency, y: Currency, d: Date, c: Candidate) {
    !Quoted(q, x, y, d) && exists r :: Newest(q, y, x, d, r) && Carries(c, r) && c.rate * r.value == 1.0
  }

  ghost predicate Leads(q: Query, x: Currency, y: Currency, d: Date, c: Candidate) {
    ByQuote(q, x, y, d, c) || ByOppositeQuote(q, x, y, d, c)
  }

  ghost predicate Linked(q: Query, x: Currency, y: Currency, d: Date) {
    Quoted(q, x, y, d) || Quoted(q, y, x, d)
  }

  ghost predicate Bridges(q: Query, a: Currency, b: Currency, d: Date, p: Currency) {
    p != a && p != b && Linked(q, a, p, d) && Linked(q, p, b, d)
  }

  ghost predicate LeastBridge(q: Query, a: Currency, b: Currency, d: Date, p: Currency) {
    Bridges(q, a, b, d, p) && forall o :: Bridges(q, a, b, d, o) ==> p <= o
  }

  predicate LaterOf(at: Instant, one: Instant, other: Instant) {
    at >= one && at >= other && (at == one || at == other)
  }

  predicate Joins(c: Candidate, first: Candidate, second: Candidate) {
    && c.rate == first.rate * second.rate
    && LaterOf(c.publishedAt, first.publishedAt, second.publishedAt)
    && LaterOf(c.availableAt, first.availableAt, second.availableAt)
    && c.assetIds == first.assetIds + second.assetIds
  }

  /** Two legs through p. */
  ghost predicate ByBridge(q: Query, a: Currency, b: Currency, d: Date, p: Currency, c: Candidate) {
    && p != a && p != b && c.path == Cross(p)
    && exists first, second :: Leads(q, a, p, d, first) && Leads(q, p, b, d, second) && Joins(c, first, second)
  }

  /** Two positive rates that differ by more than a millionth of the larger. */
  predicate Apart(x: real, y: real) {
    x - y > 0.000001 * x || y - x > 0.000001 * y
  }

  ghost predicate Reaches(q: Query, a: Currency, b: Currency, d: Date) {
    Linked(q, a, b, d) || exists p :: Bridges(q, a, b, d, p)
  }

  /** The newest observation date from which a is converted to b at all. */
  ghost predicate ReachedOn(q: Query, a: Currency, b: Currency, d: Date) {
    Reaches(q, a, b, d) && forall e :: Reaches(q, a, b, e) ==> e <= d
  }

  ghost predicate RestsOn(q: Query, a: Currency, b: Currency, d: Date, c: Candidate) {
    match c.path
    case IdentityPath => false
    case Direct => ByQuote(q, a, b, d, c)
    case Inverse => ByOppositeQuote(q, a, b, d, c)
    case Cross(p) =>
      && !Linked(q, a, b, d) && LeastBridge(q, a, b, d, p) && ByBridge(q, a, b, d, p, c)
      && forall o, e :: ByBridge(q, a, b, d, o, e) ==> !Apart(c.rate, e.rate)
  }

  ghost predicate Contested(q: Query, a: Currency, b: Currency, d: Date) {
    && !Linked(q, a, b, d)
    && exists p, c, o, e :: LeastBridge(q, a, b, d, p) && ByBridge(q, a, b, d, p, c) && ByBridge(q, a, b, d, o, e)
                            && Apart(c.rate, e.rate)
  }

  /** What each outcome says about the stored rates. */
  ghost predicate AsKnown(q: Query, a: Currency, b: Currency, maxCarryDays: nat, outcome: Outcome) {
    match outcome
    case Identity => a == b
    case Missing => a != b && forall d :: !Reaches(q, a, b, d)
    case Stale(d) => a != b && ReachedOn(q, a, b, d) && q.valueDate - d > maxCarryDays
    case Converted(d, days, c) =>
      && a != b && ReachedOn(q, a, b, d)
      && days == q.valueDate - d && 0 <= days <= maxCarryDays && RestsOn(q, a, b, d, c)
    case Ambiguous(d) =>
      a != b && ReachedOn(q, a, b, d) && q.valueDate - d <= maxCarryDays && Contested(q, a, b, d)
  }

  // ---------------------------------------------------------------------
  // The converter's rates are the known ones
  // ---------------------------------------------------------------------

  ghost function Eyes(q: Query): (v: set<Rate>)
    ensures Positive(v)
  {
    Visible(Queried(q.rates, q.observationEnd), q.grade, q.valueDate)
  }

  ghost predicate Unique(q: Query) {
    UniqueVintages(iset r | r in q.rates)
  }

  lemma VisibleIsKnown(q: Query)
    ensures forall r :: r in Eyes(q) <==> Known(q, r)
  {
  }

  predicate IsLatest(s: set<Rate>, m: Rate) {
    m in s && forall x :: x in s ==> x.availableAt <= m.availableAt
  }

  lemma {:induction false} LatestExists(s: set<Rate>, r: Rate) returns (m: Rate)
    requires r in s
    ensures IsLatest(s, m)
    decreases s
  {
    var rest := s - {r};
    m := r;
    if x :| x in rest {
      var top := LatestExists(rest, x);
      m := if top.availableAt >= r.availableAt then top else r;
    }
    forall x | x in s ensures x.availableAt <= m.availableAt { assert x != r ==> x in rest; }
  }

  lemma QuoteIsNewest(q: Query, x: Currency, y: Currency, d: Date)
    ensures Quote(Eyes(q), x, y, d).Some? <==> Quoted(q, x, y, d)
    ensures Quote(Eyes(q), x, y, d).Some? ==> Newest(q, x, y, d, Quote(Eyes(q), x, y, d).value)
  {
    var v := Eyes(q);
    VisibleIsKnown(q);
    if r :| Known(q, r) && Of(r, x, y, d) {
      var candidates := set s | s in v && s.base == x && s.quote == y && s.observation == d;
      var m := LatestExists(candidates, r);
      assert IsNewestQuote(v, x, y, d, m);
    }
  }

  lemma LegLeads(q: Query, x: Currency, y: Currency, d: Date)
    ensures Leg(Eyes(q), x, y, d).Some? <==> Linked(q, x, y, d)
    ensures Leg(Eyes(q), x, y, d).Some? ==> Leads(q, x, y, d, Leg(Eyes(q), x, y, d).value)
  {
    var v := Eyes(q);
    QuoteIsNewest(q, x, y, d);
    QuoteIsNewest(q, y, x, d);
    if Quote(v, x, y, d).None? && Quote(v, y, x, d).Some? {
      InverseMultipliesToOne(Quote(v, y, x, d).value.value);
    }
  }

  lemma CrossBridges(q: Query, a: Currency, b: Currency, d: Date, p: Currency)
    ensures IsPivot(Eyes(q), a, b, d, p) <==> Bridges(q, a, b, d, p)
    ensures IsPivot(Eyes(q), a, b, d, p) ==> ByBridge(q, a, b, d, p, Through(Eyes(q), a, b, d, p))
  {
    LegLeads(q, a, p, d);
    LegLeads(q, p, b, d);
    if IsPivot(Eyes(q), a, b, d, p) {
      var first, second := Leg(Eyes(q), a, p, d).value, Leg(Eyes(q), p, b, d).value;
      assert Joins(Through(Eyes(q), a, b, d, p), first, second);
    }
  }

  lemma LeastPivotBridges(q: Query, a: Currency, b: Currency, d: Date)
    ensures forall p :: IsPivot(Eyes(q), a, b, d, p) <==> Bridges(q, a, b, d, p)
    ensures forall p :: IsLeastPivot(Eyes(q), a, b, d, p) <==> LeastBridge(q, a, b, d, p)
  {
    forall p ensures IsPivot(Eyes(q), a, b, d, p) <==> Bridges(q, a, b, d, p) {
      CrossBridges(q, a, b, d, p);
    }
  }

  lemma PathReaches(q: Query, a: Currency, b: Currency, d: Date)
    ensures HasPath(Eyes(q), a, b, d) <==> Reaches(q, a, b, d)
  {
    QuoteIsNewest(q, a, b, d);
    QuoteIsNewest(q, b, a, d);
    LeastPivotBridges(q, a, b, d);
    if p :| Bridges(q, a, b, d, p) {
      LeastPivotExists(Eyes(q), a, b, d, p);
    }
  }

  // ---------------------------------------------------------------------
  // One reading of the evidence
  // ---------------------------------------------------------------------

  lemma NewestIsOne(q: Query, x: Currency, y: Currency, d: Date, r: Rate, s: Rate)
    requires Unique(q) && Newest(q, x, y, d, r) && Newest(q, x, y, d, s)
    ensures r == s
  {
  }

  lemma SameInverse(x: real, y: real, value: real)
    requires value > 0.0 && x * value == 1.0 && y * value == 1.0
    ensures x == y
  {
    assert (x - y) * value == 0.0;
  }

  predicate SameEvidence(c: Candidate, e: Candidate) {
    c.rate == e.rate && c.publishedAt == e.publishedAt && c.availableAt == e.availableAt && c.assetIds == e.assetIds
  }

  lemma OppositeIsOne(q: Query, x: Currency, y: Currency, d: Date, c: Candidate, e: Candidate)
    requires Unique(q) && ByOppositeQuote(q, x, y, d, c) && ByOppositeQuote(q, x, y, d, e)
    ensures SameEvidence(c, e)
  {
    var r :| Newest(q, y, x, d, r) && Carries(c, r) && c.rate * r.value == 1.0;
    var s :| Newest(q, y, x, d, s) && Carries(e, s) && e.rate * s.value == 1.0;
    NewestIsOne(q, y, x, d, r, s);
    SameInverse(c.rate, e.rate, r.value);
  }

  lemma QuoteIsOne(q: Query, x: Currency, y: Currency, d: Date, c: Candidate, e: Candidate)
    requires Unique(q) && ByQuote(q, x, y, d, c) && ByQuote(q, x, y, d, e)
    ensures SameEvidence(c, e)
  {
    var r :| Newest(q, x, y, d, r) && Carries(c, r) && c.rate == r.value;
    var s :| Newest(q, x, y, d, s) && Carries(e, s) && e.rate == s.value;
    NewestIsOne(q, x, y, d, r, s);
  }

  lemma LegIsOne(q: Query, x: Currency, y: Currency, d: Date, c: Candidate, e: Candidate)
    requires Unique(q) && Leads(q, x, y, d, c) && Leads(q, x, y, d, e)
    ensures SameEvidence(c, e)
  {
    if ByQuote(q, x, y, d, c) {
      assert Quoted(q, x, y, d);
      QuoteIsOne(q, x, y, d, c, e);
    } else {
      assert ByQuote(q, x, y, d, e) ==> Quoted(q, x, y, d);
      OppositeIsOne(q, x, y, d, c, e);
    }
  }

  lemma BridgeIsOne(q: Query, a: Currency, b: Currency, d: Date, p: Currency, c: Candidate, e: Candidate)
    requires Unique(q) && ByBridge(q, a, b, d, p, c) && ByBridge(q, a, b, d, p, e)
    ensures c == e
  {
    var first, second := LegsOf(q, a, b, d, p, c);
    var third, fourth := LegsOf(q, a, b, d, p, e);
    LegIsOne(q, a, p, d, first, third);
    LegIsOne(q, p, b, d, second, fourth);
    JoinIsOne(c, e, first, second, third, fourth);
  }

  lemma LegsOf(q: Query, a: Currency, b: Currency, d: Date, p: Currency, c: Candidate)
    returns (first: Candidate, second: Candidate)
    requires ByBridge(q, a, b, d, p, c)
    ensures Leads(q, a, p, d, first) && Leads(q, p, b, d, second) && Joins(c, first, second) && c.path == Cross(p)
  {
    first, second :| Leads(q, a, p, d, first) && Leads(q, p, b, d, second) && Joins(c, first, second);
  }

  lemma JoinIsOne(c: Candidate, e: Candidate, first: Candidate, second: Candidate, third: Candidate, fourth: Candidate)
    requires SameEvidence(first, third) && SameEvidence(second, fourth) && c.path == e.path
    requires Joins(c, first, second) && Joins(e, third, fourth)
    ensures c == e
  {
  }

  lemma LeadsLink(q: Query, x: Currency, y: Currency, d: Date, c: Candidate)
    requires Leads(q, x, y, d, c)
    ensures Linked(q, x, y, d)
  {
  }

  lemma BridgeLinks(q: Query, a: Currency, b: Currency, d: Date, p: Currency, c: Candidate)
    requires ByBridge(q, a, b, d, p, c)
    ensures Bridges(q, a, b, d, p)
  {
    var first, second := LegsOf(q, a, b, d, p, c);
    LeadsLink(q, a, p, d, first);
    LeadsLink(q, p, b, d, second);
  }

  lemma LinkedPaths(q: Query, a: Currency, b: Currency, d: Date, c: Candidate)
    requires RestsOn(q, a, b, d, c)
    ensures c.path.Cross? <==> !Linked(q, a, b, d)
    ensures c.path.Direct? <==> Quoted(q, a, b, d)
  {
  }

  /** On one date at most one derivation rests on the evidence. */
  lemma OneDerivation(q: Query, a: Currency, b: Currency, d: Date, c: Candidate, e: Candidate)
    requires Unique(q) && RestsOn(q, a, b, d, c) && RestsOn(q, a, b, d, e)
    ensures c == e
  {
    LinkedPaths(q, a, b, d, c);
    LinkedPaths(q, a, b, d, e);
    match c.path
    case Direct => QuoteIsOne(q, a, b, d, c, e);
    case Inverse => OppositeIsOne(q, a, b, d, c, e);
    case Cross(p) => BridgeIsOne(q, a, b, d, p, c, e);
  }

  /** None does where it is contested. */
  lemma NotContested(q: Query, a: Currency, b: Currency, d: Date, c: Candidate)
    requires Unique(q) && RestsOn(q, a, b, d, c)
    ensures !Contested(q, a, b, d)
  {
    LinkedPaths(q, a, b, d, c);
    if Contested(q, a, b, d) {
      var p, f, o, g :| LeastBridge(q, a, b, d, p) && ByBridge(q, a, b, d, p, f) && ByBridge(q, a, b, d, o, g)
                        && Apart(f.rate, g.rate);
      BridgeIsOne(q, a, b, d, p, c, f);
    }
  }

  /** The stored rates allow exactly one outcome. */
  lemma OneOutcome(q: Query, a: Currency, b: Currency, maxCarryDays: nat, one: Outcome, other: Outcome)
    requires Unique(q) && AsKnown(q, a, b, maxCarryDays, one) && AsKnown(q, a, b, maxCarryDays, other)
    ensures one == other
  {
    if one.Converted? && other.Converted? {
      SameDate(q, a, b, one.observation, other.observation);
      OneDerivation(q, a, b, one.observation, one.candidate, other.candidate);
    } else if one.Converted? {
      NothingElse(q, a, b, maxCarryDays, one, other);
    } else if other.Converted? {
      NothingElse(q, a, b, maxCarryDays, other, one);
    } else if !one.Identity? && !one.Missing? && !other.Identity? && !other.Missing? {
      SameDate(q, a, b, one.observation, other.observation);
    }
  }

  lemma SameDate(q: Query, a: Currency, b: Currency, d: Date, e: Date)
    requires ReachedOn(q, a, b, d) && ReachedOn(q, a, b, e)
    ensures d == e
  {
  }

  lemma NothingElse(q: Query, a: Currency, b: Currency, maxCarryDays: nat, one: Outcome, other: Outcome)
    requires Unique(q) && one.Converted? && AsKnown(q, a, b, maxCarryDays, one)
    ensures AsKnown(q, a, b, maxCarryDays, other) ==> other.Converted?
  {
    NotContested(q, a, b, one.observation, one.candidate);
    if other.Stale? && ReachedOn(q, a, b, other.observation) {
      SameDate(q, a, b, one.observation, other.observation);
    }
    if other.Ambiguous? && ReachedOn(q, a, b, other.observation) {
      SameDate(q, a, b, one.observation, other.observation);
    }
  }

  // ---------------------------------------------------------------------
  // The law
  // ---------------------------------------------------------------------

  lemma ApartMeansDisagreement(x: real, y: real)
    requires x > 0.0 && y > 0.0
    ensures RelativeDifference(x, y) > PATH_AGREEMENT_TOLERANCE <==> Apart(x, y)
  {
    var scale := if x >= y then x else y;
    var gap := if x >= y then x - y else y - x;
    assert RelativeDifference(x, y) == gap / scale;
    QuotientExceeds(gap, scale, 0.000001);
  }

  lemma QuotientExceeds(n: real, m: real, t: real)
    requires m > 0.0
    ensures n / m > t <==> n > t * m
  {
    var quotient := n / m;
    assert n == quotient * m;
    if quotient > t {
      ScaleStrictly(t, quotient, m);
    } else {
      ScaleBoth(quotient, t, m);
    }
  }

  lemma ThroughIsBridge(q: Query, a: Currency, b: Currency, d: Date, o: Currency, e: Candidate)
    requires Unique(q) && ByBridge(q, a, b, d, o, e)
    ensures IsPivot(Eyes(q), a, b, d, o) && e == Through(Eyes(q), a, b, d, o) && e.rate > 0.0
  {
    BridgeLinks(q, a, b, d, o, e);
    CrossBridges(q, a, b, d, o);
    BridgeIsOne(q, a, b, d, o, e, Through(Eyes(q), a, b, d, o));
    CrossIsPositive(Eyes(q), a, b, d, o);
  }

  /** One date: the derivation the converter settles on rests on what is known. */
  lemma DerivationIsAsKnown(q: Query, a: Currency, b: Currency, d: Date)
    requires Unique(q)
    ensures DerivedOn(Eyes(q), a, b, d).Chosen? ==> RestsOn(q, a, b, d, DerivedOn(Eyes(q), a, b, d).candidate)
    ensures DerivedOn(Eyes(q), a, b, d).Disagreement? ==> Contested(q, a, b, d)
  {
    var v := Eyes(q);
    QuoteIsNewest(q, a, b, d);
    QuoteIsNewest(q, b, a, d);
    if Quote(v, a, b, d).Some? || Quote(v, b, a, d).Some? {
      LinkIsAsKnown(q, a, b, d);
    } else if p :| IsLeastPivot(v, a, b, d, p) {
      CrossDerivation(v, a, b, d, p);
      if o :| Disagrees(v, a, b, d, p, o) {
        DisagreeingBridges(q, a, b, d, p, o);
      } else {
        CrossRestsOn(q, a, b, d, p);
      }
    }
  }

  lemma LinkIsAsKnown(q: Query, a: Currency, b: Currency, d: Date)
    requires Quote(Eyes(q), a, b, d).Some? || Quote(Eyes(q), b, a, d).Some?
    ensures DerivedOn(Eyes(q), a, b, d).Chosen? && RestsOn(q, a, b, d, DerivedOn(Eyes(q), a, b, d).candidate)
  {
    var v := Eyes(q);
    QuoteIsNewest(q, a, b, d);
    QuoteIsNewest(q, b, a, d);
    if Quote(v, a, b, d).None? {
      InverseMultipliesToOne(Quote(v, b, a, d).value.value);
    }
  }

  lemma CrossDerivation(v: set<Rate>, a: Currency, b: Currency, d: Date, p: Currency)
    requires Positive(v) && Quote(v, a, b, d).None? && Quote(v, b, a, d).None? && IsLeastPivot(v, a, b, d, p)
    ensures DerivedOn(v, a, b, d) ==
      if exists o :: Disagrees(v, a, b, d, p, o) then Disagreement else Chosen(Through(v, a, b, d, p))
  {
    assert forall o :: IsLeastPivot(v, a, b, d, o) ==> o == p;
  }

  lemma CrossRestsOn(q: Query, a: Currency, b: Currency, d: Date, p: Currency)
    requires Unique(q) && !Linked(q, a, b, d) && IsLeastPivot(Eyes(q), a, b, d, p)
    requires forall o :: !Disagrees(Eyes(q), a, b, d, p, o)
    ensures RestsOn(q, a, b, d, Through(Eyes(q), a, b, d, p))
  {
    var c := Through(Eyes(q), a, b, d, p);
    LeastPivotBridges(q, a, b, d);
    CrossBridges(q, a, b, d, p);
    forall o, e | ByBridge(q, a, b, d, o, e) ensures !Apart(c.rate, e.rate) {
      AgreeingBridges(q, a, b, d, p, o, e);
    }
  }

  lemma DisagreeingBridges(q: Query, a: Currency, b: Currency, d: Date, p: Currency, o: Currency)
    requires !Linked(q, a, b, d) && IsLeastPivot(Eyes(q), a, b, d, p) && Disagrees(Eyes(q), a, b, d, p, o)
    ensures Contested(q, a, b, d)
  {
    LeastPivotBridges(q, a, b, d);
    CrossBridges(q, a, b, d, p);
    CrossBridges(q, a, b, d, o);
    CrossIsPositive(Eyes(q), a, b, d, p);
    CrossIsPositive(Eyes(q), a, b, d, o);
    ApartMeansDisagreement(Through(Eyes(q), a, b, d, p).rate, Through(Eyes(q), a, b, d, o).rate);
  }

  lemma AgreeingBridges(q: Query, a: Currency, b: Currency, d: Date, p: Currency, o: Currency, e: Candidate)
    requires Unique(q) && IsPivot(Eyes(q), a, b, d, p) && ByBridge(q, a, b, d, o, e)
    requires !Disagrees(Eyes(q), a, b, d, p, o)
    ensures !Apart(Through(Eyes(q), a, b, d, p).rate, e.rate)
  {
    CrossIsPositive(Eyes(q), a, b, d, p);
    ThroughIsBridge(q, a, b, d, o, e);
    ApartMeansDisagreement(Through(Eyes(q), a, b, d, p).rate, e.rate);
  }

  /** Point in time: a conversion is what the rates known by the end of its
      valued date, by the clocks its grade asks for, make it. */
  lemma ConversionIsAsKnown(q: Query, a: Currency, b: Currency, maxCarryDays: nat)
    requires Unique(q)
    ensures AsKnown(q, a, b, maxCarryDays, Conversion(Eyes(q), a, b, q.valueDate, maxCarryDays))
  {
    var v := Eyes(q);
    forall d ensures HasPath(v, a, b, d) <==> Reaches(q, a, b, d) {
      PathReaches(q, a, b, d);
    }
    if a != b {
      if d :| IsNewestDate(v, a, b, d) {
        ConversionAt(v, a, b, q.valueDate, maxCarryDays, d);
        PathHasRate(v, a, b, d);
        DerivationIsAsKnown(q, a, b, d);
      } else if d :| HasPath(v, a, b, d) {
        forall e | HasPath(v, a, b, e) ensures e <= q.valueDate { PathHasRate(v, a, b, e); }
        NewestDateExists(v, a, b, d, q.valueDate);
        assert false;
      }
    }
  }

  /** A conversion answers for the stored rates alone, whatever the converter
      loaded before. */
  method Answer(converter: FxConverter, a: Currency, b: Currency, valueDate: Date) returns (outcome: Outcome)
    requires converter.Valid()
    modifies converter
    ensures converter.Valid()
    ensures AsKnown(Query(converter.rates, converter.observationEnd, converter.grade, valueDate), a, b,
              converter.maxCarryDays, outcome)
  {
    outcome := converter.Convert(a, b, valueDate);
    ConversionIsAsKnown(Query(converter.rates, converter.observationEnd, converter.grade, valueDate), a, b,
      converter.maxCarryDays);
  }

  /** A known quote inside the carry window converts, unless a later date is
      reached: at its own value if it is the newest of its date, and otherwise at
      the value of the one that is. */
  lemma KnownQuoteConverts(q: Query, a: Currency, b: Currency, maxCarryDays: nat, r: Rate)
    requires Unique(q) && Known(q, r) && r.base == a && r.quote == b && q.valueDate - r.observation <= maxCarryDays
    requires forall d :: d > r.observation ==> !Reaches(q, a, b, d)
    ensures var outcome := Conversion(Eyes(q), a, b, q.valueDate, maxCarryDays);
      && outcome.Converted? && outcome.observation == r.observation && outcome.candidate.path == Direct
      && (Newest(q, a, b, r.observation, r) ==> outcome.candidate.rate == r.value)
      && (exists s :: Known(q, s) && Of(s, a, b, r.observation) && outcome.candidate.rate == s.value
                      && s.availableAt >= r.availableAt)
  {
    var outcome := Conversion(Eyes(q), a, b, q.valueDate, maxCarryDays);
    ConversionIsAsKnown(q, a, b, maxCarryDays);
    assert Of(r, a, b, r.observation) && Quoted(q, a, b, r.observation) && Reaches(q, a, b, r.observation);
    assert !outcome.Missing? && !outcome.Identity?;
    assert ReachedOn(q, a, b, outcome.observation) && outcome.observation == r.observation;
    var c := outcome.candidate;
    assert c.path == Direct && ByQuote(q, a, b, r.observation, c);
    var s :| Newest(q, a, b, r.observation, s) && Carries(c, s) && c.rate == s.value;
    assert Known(q, s);
    if Newest(q, a, b, r.observation, r) {
      NewestIsOne(q, a, b, r.observation, r, s);
    }
  }
}
