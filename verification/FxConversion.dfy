/** Point-in-time FX conversion (fx.py): ranked derivation paths over dated
    vintages, one availability cutoff per valued date, bounded carry, and
    refusal of materially ambiguous rates.

    Dates count days and instants count microseconds from one epoch. Currency
    codes are numbered in their alphabetical order; rates are reals. */
module FxConversion {
  import opened Wrappers
  import opened Sorting
  import opened IntegerSets

  type Currency = nat
  type Date = int
  type Instant = int

  const MICROSECONDS_PER_DAY := 86_400_000_000
  const PATH_AGREEMENT_TOLERANCE := 0.000001

  datatype Grade = Observed | Research

  /** One stored FX vintage with the clocks of its source asset. */
  datatype Rate = Rate(
    base: Currency,
    quote: Currency,
    observation: Date,
    value: real,
    publishedAt: Instant,
    availableAt: Instant,
    sourceAvailableAt: Instant,
    sourceRetrievedAt: Instant,
    assetId: nat)

  datatype Path = IdentityPath | Direct | Inverse | Cross(pivot: Currency)

  datatype Candidate = Candidate(
    path: Path,
    rate: real,
    publishedAt: Instant,
    availableAt: Instant,
    assetIds: set<nat>)

  datatype Derived = NoPath | Chosen(candidate: Candidate) | Disagreement

  datatype Outcome =
    | Identity
    | Converted(observation: Date, carryDays: int, candidate: Candidate)
    | Ambiguous(observation: Date)
    | Stale(observation: Date)
    | Missing

  /** The end of the valued date. */
  function CutoffFor(valueDate: Date): Instant {
    (valueDate + 1) * MICROSECONDS_PER_DAY - 1
  }

  predicate Eligible(grade: Grade, r: Rate, cutoff: Instant) {
    && r.publishedAt <= cutoff
    && (grade == Research
        || (r.availableAt <= cutoff && r.sourceAvailableAt <= cutoff && r.sourceRetrievedAt <= cutoff))
  }

  /** Rows the loader keeps. */
  predicate Usable(r: Rate) {
    r.base != r.quote && r.value > 0.0
  }

  /** `unique_fx_vintage`. */
  ghost predicate UniqueVintages(rates: iset<Rate>) {
    forall r, s :: r in rates && s in rates
      && r.base == s.base && r.quote == s.quote && r.observation == s.observation && r.availableAt == s.availableAt
      ==> r == s
  }

  // ---------------------------------------------------------------------
  // Declarative conversion over the rates visible at one valued date
  // ---------------------------------------------------------------------

  /** All that a value dated `valueDate` may use. */
  ghost function Visible(rates: seq<Rate>, grade: Grade, valueDate: Date): set<Rate> {
    set r | r in rates && Usable(r) && r.observation <= valueDate && Eligible(grade, r, CutoffFor(valueDate))
  }

  ghost predicate IsNewestQuote(v: set<Rate>, a: Currency, b: Currency, d: Date, r: Rate) {
    && r in v && r.base == a && r.quote == b && r.observation == d
    && forall s :: s in v && s.base == a && s.quote == b && s.observation == d ==> s.availableAt <= r.availableAt
  }

  /** The newest-knowable visible vintage of one pair on one date. */
  ghost function Quote(v: set<Rate>, a: Currency, b: Currency, d: Date): Option<Rate> {
    if exists r :: IsNewestQuote(v, a, b, d, r) then
      var r :| IsNewestQuote(v, a, b, d, r);
      Some(r)
    else None
  }

  function DirectCandidate(r: Rate): Candidate {
    Candidate(Direct, r.value, r.publishedAt, r.availableAt, {r.assetId})
  }

  function InverseCandidate(r: Rate): Candidate
    requires r.value > 0.0
  {
    Candidate(Inverse, 1.0 / r.value, r.publishedAt, r.availableAt, {r.assetId})
  }

  function CrossCandidate(pivot: Currency, first: Candidate, second: Candidate): Candidate {
    Candidate(Cross(pivot), first.rate * second.rate,
              Max(first.publishedAt, second.publishedAt),
              Max(first.availableAt, second.availableAt),
              first.assetIds + second.assetIds)
  }

  ghost predicate Positive(v: set<Rate>) {
    forall r :: r in v ==> Usable(r)
  }

  /** One leg, quoted directly or inverted. */
  ghost function Leg(v: set<Rate>, a: Currency, b: Currency, d: Date): Option<Candidate>
    requires Positive(v)
  {
    match Quote(v, a, b, d)
    case Some(r) => Some(DirectCandidate(r))
    case None =>
      match Quote(v, b, a, d)
      case Some(r) => Some(InverseCandidate(r))
      case None => None
  }

  ghost predicate IsPivot(v: set<Rate>, a: Currency, b: Currency, d: Date, p: Currency)
    requires Positive(v)
  {
    p != a && p != b && Leg(v, a, p, d).Some? && Leg(v, p, b, d).Some?
  }

  ghost function Through(v: set<Rate>, a: Currency, b: Currency, d: Date, p: Currency): Candidate
    requires Positive(v) && IsPivot(v, a, b, d, p)
  {
    CrossCandidate(p, Leg(v, a, p, d).value, Leg(v, p, b, d).value)
  }

  ghost predicate IsLeastPivot(v: set<Rate>, a: Currency, b: Currency, d: Date, p: Currency)
    requires Positive(v)
  {
    IsPivot(v, a, b, d, p) && forall q :: IsPivot(v, a, b, d, q) ==> p <= q
  }

  function Abs(x: real): real {
    if x < 0.0 then -x else x
  }

  function RelativeDifference(left: real, right: real): real {
    var scale := if Abs(left) >= Abs(right) then Abs(left) else Abs(right);
    if scale == 0.0 then 0.0 else Abs(left - right) / scale
  }

  ghost predicate Disagrees(v: set<Rate>, a: Currency, b: Currency, d: Date, p: Currency, q: Currency)
    requires Positive(v)
  {
    && IsPivot(v, a, b, d, p) && IsPivot(v, a, b, d, q)
    && RelativeDifference(Through(v, a, b, d, p).rate, Through(v, a, b, d, q).rate) > PATH_AGREEMENT_TOLERANCE
  }

  /** A direct quote beats an inverted one, which beats every cross; among
      crosses the least pivot stands for all, unless one disagrees with it. */
  ghost function DerivedOn(v: set<Rate>, a: Currency, b: Currency, d: Date): Derived
    requires Positive(v)
  {
    if Quote(v, a, b, d).Some? then Chosen(DirectCandidate(Quote(v, a, b, d).value))
    else if Quote(v, b, a, d).Some? then Chosen(InverseCandidate(Quote(v, b, a, d).value))
    else if exists p :: IsLeastPivot(v, a, b, d, p) then
      var p :| IsLeastPivot(v, a, b, d, p);
      if exists q :: Disagrees(v, a, b, d, p, q) then Disagreement else Chosen(Through(v, a, b, d, p))
    else NoPath
  }

  ghost predicate HasPath(v: set<Rate>, a: Currency, b: Currency, d: Date)
    requires Positive(v)
  {
    DerivedOn(v, a, b, d) != NoPath
  }

  ghost predicate IsNewestDate(v: set<Rate>, a: Currency, b: Currency, d: Date)
    requires Positive(v)
  {
    HasPath(v, a, b, d) && forall e :: HasPath(v, a, b, e) ==> e <= d
  }

  /** The required outcome: the newest dated path decides, if it is inside the
      carry window; if it is not, the rate is stale; with no path it is missing. */
  ghost function Conversion(v: set<Rate>, a: Currency, b: Currency, valueDate: Date, maxCarryDays: nat): Outcome
    requires Positive(v)
  {
    if a == b then Identity
    else if exists d :: IsNewestDate(v, a, b, d) then
      var d :| IsNewestDate(v, a, b, d);
      OutcomeOn(v, a, b, valueDate, maxCarryDays, d)
    else Missing
  }

  /** What the newest dated path decides. */
  ghost function OutcomeOn(v: set<Rate>, a: Currency, b: Currency, valueDate: Date, maxCarryDays: nat, d: Date): Outcome
    requires Positive(v)
  {
    if valueDate - d > maxCarryDays then Stale(d) else Inside(d, valueDate - d, DerivedOn(v, a, b, d))
  }

  function Inside(d: Date, carryDays: int, derived: Derived): Outcome {
    match derived
    case Chosen(c) => Converted(d, carryDays, c)
    case _ => Ambiguous(d)
  }

  lemma NewestDateIsUnique(v: set<Rate>, a: Currency, b: Currency)
    requires Positive(v)
    ensures forall d, e :: IsNewestDate(v, a, b, d) && IsNewestDate(v, a, b, e) ==> d == e
  {
  }

  lemma ConversionAt(v: set<Rate>, a: Currency, b: Currency, valueDate: Date, maxCarryDays: nat, d: Date)
    requires Positive(v) && a != b && IsNewestDate(v, a, b, d)
    ensures Conversion(v, a, b, valueDate, maxCarryDays) == OutcomeOn(v, a, b, valueDate, maxCarryDays, d)
  {
    NewestDateIsUnique(v, a, b);
  }

  // ---------------------------------------------------------------------
  // The converter
  // ---------------------------------------------------------------------

  /** What the as-of query returns when observations are bounded. */
  function Queried(rates: seq<Rate>, observationEnd: Option<Date>): (r: seq<Rate>)
    ensures forall x :: x in r <==> x in rates && (observationEnd.None? || x.observation <= observationEnd.value)
  {
    if rates == [] then []
    else
      var last := rates[|rates| - 1];
      assert rates == rates[..|rates| - 1] + [last];
      var r := Queried(rates[..|rates| - 1], observationEnd);
      if observationEnd.None? || last.observation <= observationEnd.value then r + [last] else r
  }

  /** Usable rows of one pair on one date, in query order. */
  function Bucket(rates: seq<Rate>, a: Currency, b: Currency, d: Date): (r: seq<Rate>)
    ensures forall x :: x in r <==> x in rates && Usable(x) && x.base == a && x.quote == b && x.observation == d
  {
    if rates == [] then []
    else
      var last := rates[|rates| - 1];
      assert rates == rates[..|rates| - 1] + [last];
      var r := Bucket(rates[..|rates| - 1], a, b, d);
      if Usable(last) && last.base == a && last.quote == b && last.observation == d then r + [last] else r
  }

  /** Vintages are sorted by availability, then publication, then asset. */
  function ByKnowability(x: Rate, y: Rate): bool {
    x.availableAt < y.availableAt
    || (x.availableAt == y.availableAt
        && (x.publishedAt < y.publishedAt || (x.publishedAt == y.publishedAt && x.assetId <= y.assetId)))
  }

  type Slots = map<(Currency, Currency), map<Date, seq<Rate>>>

  function At(pairs: Slots, a: Currency, b: Currency, d: Date): seq<Rate> {
    if (a, b) in pairs && d in pairs[(a, b)] then pairs[(a, b)][d] else []
  }

  /** `setdefault` twice, then append. */
  function Filed(pairs: Slots, r: Rate): Slots {
    var slot := if (r.base, r.quote) in pairs then pairs[(r.base, r.quote)] else map[];
    pairs[(r.base, r.quote) := slot[r.observation := At(pairs, r.base, r.quote, r.observation) + [r]]]
  }

  function SortedSlots(pairs: Slots): Slots {
    map k | k in pairs :: map d | d in pairs[k] :: Sort(pairs[k][d], ByKnowability)
  }

  ghost predicate FiledFrom(pairs: Slots, rates: seq<Rate>) {
    forall a, b, d :: At(pairs, a, b, d) == Bucket(rates, a, b, d)
  }

  lemma FileStep(pairs: Slots, rates: seq<Rate>, k: nat)
    requires k < |rates| && FiledFrom(pairs, rates[..k])
    ensures FiledFrom(if Usable(rates[k]) then Filed(pairs, rates[k]) else pairs, rates[..k + 1])
  {
    var grown := rates[..k + 1];
    var r := rates[k];
    assert grown[..k] == rates[..k] && grown[k] == r;
    var filed := if Usable(r) then Filed(pairs, r) else pairs;
    forall a, b, d ensures At(filed, a, b, d) == Bucket(grown, a, b, d) {
      FiledAt(pairs, r, a, b, d);
      assert At(pairs, a, b, d) == Bucket(rates[..k], a, b, d);
    }
  }

  lemma FiledAt(pairs: Slots, r: Rate, a: Currency, b: Currency, d: Date)
    ensures At(Filed(pairs, r), a, b, d)
         == At(pairs, a, b, d) + if r.base == a && r.quote == b && r.observation == d then [r] else []
  {
    if (a, b) != (r.base, r.quote) {
      assert ((a, b) in Filed(pairs, r)) == ((a, b) in pairs);
    }
  }

  function CurrenciesOf(rates: seq<Rate>): (r: set<Currency>)
    ensures forall x :: x in rates && Usable(x) ==> x.base in r && x.quote in r
  {
    if rates == [] then {}
    else
      var last := rates[|rates| - 1];
      assert rates == rates[..|rates| - 1] + [last];
      CurrenciesOf(rates[..|rates| - 1]) + if Usable(last) then {last.base, last.quote} else {}
  }

  function DatesOf(rates: seq<Rate>): (r: set<Date>)
    ensures forall x :: x in rates && Usable(x) ==> x.observation in r
  {
    if rates == [] then {}
    else
      var last := rates[|rates| - 1];
      assert rates == rates[..|rates| - 1] + [last];
      DatesOf(rates[..|rates| - 1]) + if Usable(last) then {last.observation} else {}
  }

  function AsInts(s: set<Currency>): set<int> {
    set c | c in s :: c as int
  }

  lemma ByKnowabilityIsTotal()
    ensures TotalPreorder(ByKnowability)
  {
  }

  function BisectRight(s: seq<Date>, x: Date): (k: nat)
    requires Ascending(s)
    ensures k <= |s|
    ensures forall i :: 0 <= i < k ==> s[i] <= x
    ensures forall i :: k <= i < |s| ==> s[i] > x
  {
    if s == [] then 0
    else
      var n := |s| - 1;
      if s[n] <= x then |s| else BisectRight(s[..n], x)
  }

  lemma NewestIsUnique(rates: seq<Rate>, grade: Grade, valueDate: Date, a: Currency, b: Currency, d: Date, r: Rate)
    requires UniqueVintages(iset x | x in rates)
    requires IsNewestQuote(Visible(rates, grade, valueDate), a, b, d, r)
    ensures Quote(Visible(rates, grade, valueDate), a, b, d) == Some(r)
  {
  }

  lemma SortedBucket(rates: seq<Rate>, a: Currency, b: Currency, d: Date)
    ensures Ordered(Sort(Bucket(rates, a, b, d), ByKnowability), ByKnowability)
    ensures forall r :: r in Sort(Bucket(rates, a, b, d), ByKnowability) <==>
      (r in rates && Usable(r) && r.base == a && r.quote == b && r.observation == d)
  {
    ByKnowabilityIsTotal();
    SortIsOrderedPermutation(Bucket(rates, a, b, d), ByKnowability);
    SameMembers(Bucket(rates, a, b, d), Sort(Bucket(rates, a, b, d), ByKnowability));
  }

  lemma LastEligibleDominates(vintages: seq<Rate>, grade: Grade, cutoff: Instant, i: nat, s: Rate)
    requires Ordered(vintages, ByKnowability)
    requires i < |vintages| && s in vintages && Eligible(grade, s, cutoff)
    requires forall j :: i < j < |vintages| ==> !Eligible(grade, vintages[j], cutoff)
    ensures s.availableAt <= vintages[i].availableAt
  {
    var j :| 0 <= j < |vintages| && vintages[j] == s;
    assert j == i || ByKnowability(vintages[j], vintages[i]);
  }

  /** The last eligible vintage of a sorted bucket is the newest visible quote. */
  lemma LastEligibleIsNewest(rates: seq<Rate>, grade: Grade, valueDate: Date, a: Currency, b: Currency, d: Date, i: nat)
    requires UniqueVintages(iset x | x in rates) && d <= valueDate
    requires
      var vintages := Sort(Bucket(rates, a, b, d), ByKnowability);
      && i < |vintages| && Eligible(grade, vintages[i], CutoffFor(valueDate))
      && forall j :: i < j < |vintages| ==> !Eligible(grade, vintages[j], CutoffFor(valueDate))
    ensures Quote(Visible(rates, grade, valueDate), a, b, d) == Some(Sort(Bucket(rates, a, b, d), ByKnowability)[i])
  {
    var vintages := Sort(Bucket(rates, a, b, d), ByKnowability);
    SortedBucket(rates, a, b, d);
    var v := Visible(rates, grade, valueDate);
    forall s | s in v && s.base == a && s.quote == b && s.observation == d
      ensures s.availableAt <= vintages[i].availableAt {
      LastEligibleDominates(vintages, grade, CutoffFor(valueDate), i, s);
    }
    assert vintages[i] in v;
    NewestIsUnique(rates, grade, valueDate, a, b, d, vintages[i]);
  }

  lemma NothingEligible(rates: seq<Rate>, grade: Grade, valueDate: Date, a: Currency, b: Currency, d: Date)
    requires forall r :: r in Sort(Bucket(rates, a, b, d), ByKnowability) ==> !Eligible(grade, r, CutoffFor(valueDate))
    ensures Quote(Visible(rates, grade, valueDate), a, b, d) == None
  {
    SortedBucket(rates, a, b, d);
  }

  function Rank(p: Path): nat {
    match p
    case IdentityPath => 0
    case Direct => 0
    case Inverse => 1
    case Cross(_) => 2
  }

  /** Order of path texts within one rank. */
  function PathKey(p: Path): nat {
    if p.Cross? then p.pivot else 0
  }

  /** c is one of the derivations the rates visible on d admit. */
  ghost predicate IsCandidate(v: set<Rate>, a: Currency, b: Currency, d: Date, c: Candidate)
    requires Positive(v)
  {
    match c.path
    case IdentityPath => false
    case Direct => Quote(v, a, b, d).Some? && c == DirectCandidate(Quote(v, a, b, d).value)
    case Inverse => Quote(v, b, a, d).Some? && c == InverseCandidate(Quote(v, b, a, d).value)
    case Cross(p) => IsPivot(v, a, b, d, p) && c == Through(v, a, b, d, p)
  }

  ghost predicate AreCandidates(v: set<Rate>, a: Currency, b: Currency, d: Date, cs: seq<Candidate>)
    requires Positive(v)
  {
    forall c :: c in cs <==> IsCandidate(v, a, b, d, c)
  }

  predicate NoWorse(x: Candidate, y: Candidate) {
    Rank(x.path) < Rank(y.path) || (Rank(x.path) == Rank(y.path) && PathKey(x.path) <= PathKey(y.path))
  }

  ghost predicate IsBest(v: set<Rate>, a: Currency, b: Currency, d: Date, c: Candidate)
    requires Positive(v)
  {
    IsCandidate(v, a, b, d, c) && forall x :: IsCandidate(v, a, b, d, x) ==> NoWorse(c, x)
  }

  /** The candidate the selection settles on is the one the declarative rule names. */
  lemma BestIsDerived(v: set<Rate>, a: Currency, b: Currency, d: Date, c: Candidate)
    requires Positive(v) && IsBest(v, a, b, d, c)
    ensures
      DerivedOn(v, a, b, d) ==
      if exists x :: IsCandidate(v, a, b, d, x) && Rank(x.path) == Rank(c.path) && x.path != c.path
                     && RelativeDifference(c.rate, x.rate) > PATH_AGREEMENT_TOLERANCE
      then Disagreement else Chosen(c)
  {
    if Quote(v, a, b, d).Some? {
      var x := DirectCandidate(Quote(v, a, b, d).value);
      assert IsCandidate(v, a, b, d, x) && NoWorse(c, x);
    } else if Quote(v, b, a, d).Some? {
      var x := InverseCandidate(Quote(v, b, a, d).value);
      assert IsCandidate(v, a, b, d, x) && NoWorse(c, x);
    } else {
      var p := c.path.pivot;
      forall q | IsPivot(v, a, b, d, q) ensures p <= q {
        assert IsCandidate(v, a, b, d, Through(v, a, b, d, q));
      }
      assert IsLeastPivot(v, a, b, d, p);
      forall q | Disagrees(v, a, b, d, p, q)
        ensures exists x :: IsCandidate(v, a, b, d, x) && Rank(x.path) == Rank(c.path) && x.path != c.path
                            && RelativeDifference(c.rate, x.rate) > PATH_AGREEMENT_TOLERANCE
      {
        assert IsCandidate(v, a, b, d, Through(v, a, b, d, q));
      }
      forall x | IsCandidate(v, a, b, d, x) && x.path != c.path
                 && RelativeDifference(c.rate, x.rate) > PATH_AGREEMENT_TOLERANCE
        ensures Disagrees(v, a, b, d, p, x.path.pivot)
      {
      }
    }
  }

  lemma PathIffCandidate(v: set<Rate>, a: Currency, b: Currency, d: Date)
    requires Positive(v)
    ensures HasPath(v, a, b, d) <==> exists c :: IsCandidate(v, a, b, d, c)
  {
    if c :| IsCandidate(v, a, b, d, c) {
      if Quote(v, a, b, d).None? && Quote(v, b, a, d).None? {
        LeastPivotExists(v, a, b, d, c.path.pivot);
      }
    }
    if HasPath(v, a, b, d) {
      if Quote(v, a, b, d).Some? {
        assert IsCandidate(v, a, b, d, DirectCandidate(Quote(v, a, b, d).value));
      } else if Quote(v, b, a, d).Some? {
        assert IsCandidate(v, a, b, d, InverseCandidate(Quote(v, b, a, d).value));
      } else {
        var p :| IsLeastPivot(v, a, b, d, p);
        assert IsCandidate(v, a, b, d, Through(v, a, b, d, p));
      }
    }
  }

  lemma {:induction false} LeastPivotExists(v: set<Rate>, a: Currency, b: Currency, d: Date, p: Currency)
    requires Positive(v) && IsPivot(v, a, b, d, p)
    ensures exists q :: IsLeastPivot(v, a, b, d, q)
  {
    if q: Currency :| IsPivot(v, a, b, d, q) && q < p {
      LeastPivotExists(v, a, b, d, q);
    } else {
      assert IsLeastPivot(v, a, b, d, p);
    }
  }

  method BestOf(candidates: seq<Candidate>) returns (sameRank: seq<Candidate>, chosen: Candidate)
    requires candidates != []
    ensures chosen in candidates && forall c :: c in candidates ==> NoWorse(chosen, c)
    ensures forall c :: c in sameRank <==> c in candidates && Rank(c.path) == Rank(chosen.path)
  {
    var bestRank := Rank(candidates[0].path);
    for i := 0 to |candidates|
      invariant forall j :: 0 <= j < i ==> bestRank <= Rank(candidates[j].path)
      invariant exists j :: 0 <= j < |candidates| && Rank(candidates[j].path) == bestRank
    {
      if Rank(candidates[i].path) < bestRank { bestRank := Rank(candidates[i].path); }
    }
    sameRank := [];
    for i := 0 to |candidates|
      invariant forall c :: c in sameRank <==> exists j :: 0 <= j < i && candidates[j] == c && Rank(c.path) == bestRank
    {
      if Rank(candidates[i].path) == bestRank { sameRank := sameRank + [candidates[i]]; }
    }
    var some :| 0 <= some < |candidates| && Rank(candidates[some].path) == bestRank;
    assert candidates[some] in sameRank;
    chosen := sameRank[0];
    for i := 0 to |sameRank|
      invariant chosen in sameRank
      invariant forall j :: 0 <= j < i ==> PathKey(chosen.path) <= PathKey(sameRank[j].path)
    {
      if PathKey(sameRank[i].path) < PathKey(chosen.path) { chosen := sameRank[i]; }
    }
  }

  method AnyDisagrees(chosen: Candidate, sameRank: seq<Candidate>) returns (r: bool)
    ensures r <==> exists x :: x in sameRank && x.path != chosen.path
                               && RelativeDifference(chosen.rate, x.rate) > PATH_AGREEMENT_TOLERANCE
  {
    for i := 0 to |sameRank|
      invariant forall j :: 0 <= j < i && sameRank[j].path != chosen.path ==>
        RelativeDifference(chosen.rate, sameRank[j].rate) <= PATH_AGREEMENT_TOLERANCE
    {
      var other := sameRank[i];
      if other.path == chosen.path { continue; }
      if RelativeDifference(chosen.rate, other.rate) > PATH_AGREEMENT_TOLERANCE { return true; }
    }
    r := false;
  }

  /** The loop of `_load` over the queried rows. */
  method FileAll(rows: seq<Rate>) returns (slots: Slots, seen: set<Currency>, dates: set<Date>)
    ensures FiledFrom(slots, rows) && seen == CurrenciesOf(rows) && dates == DatesOf(rows)
  {
    slots, seen, dates := map[], {}, {};
    for k := 0 to |rows|
      invariant FiledFrom(slots, rows[..k])
      invariant seen == CurrenciesOf(rows[..k]) && dates == DatesOf(rows[..k])
    {
      FileStep(slots, rows, k);
      assert rows[..k + 1][..k] == rows[..k];
      var r := rows[k];
      if Usable(r) {
        slots := Filed(slots, r);
        seen := seen + {r.base, r.quote};
        dates := dates + {r.observation};
      }
    }
    assert rows[..|rows|] == rows;
  }

  /** The candidates once the pivots before `k` have been tried. */
  ghost predicate CandidatesUpTo(v: set<Rate>, a: Currency, b: Currency, d: Date, cs: seq<Candidate>,
                                 pivots: seq<int>, k: nat)
    requires Positive(v) && k <= |pivots|
  {
    forall c :: c in cs <==> IsCandidate(v, a, b, d, c) && (c.path.Cross? ==> c.path.pivot in pivots[..k])
  }

  ghost predicate IsCross(v: set<Rate>, a: Currency, b: Currency, d: Date, p: Currency, found: Option<Candidate>)
    requires Positive(v)
  {
    found == if IsPivot(v, a, b, d, p) then Some(Through(v, a, b, d, p)) else None
  }

  lemma TryPivot(v: set<Rate>, a: Currency, b: Currency, d: Date, cs: seq<Candidate>, pivots: seq<int>, k: nat,
                 p: Currency, found: Option<Candidate>)
    requires Positive(v) && k < |pivots| && pivots[k] == p
    requires CandidatesUpTo(v, a, b, d, cs, pivots, k) && IsCross(v, a, b, d, p, found)
    ensures CandidatesUpTo(v, a, b, d, if found.Some? then cs + [found.value] else cs, pivots, k + 1)
  {
    assert pivots[..k + 1] == pivots[..k] + [p];
  }

  class FxConverter {
    const rates: seq<Rate>
    const grade: Grade
    const maxCarryDays: nat
    const observationEnd: Option<Date>
    var loaded: bool
    var pairs: Slots
    var currencies: set<Currency>
    var observationDates: seq<Date>

    ghost predicate Valid()
      reads this
    {
      && UniqueVintages(iset r | r in rates)
      && (loaded ==> Holds(Queried(rates, observationEnd)))
    }

    ghost predicate Holds(rows: seq<Rate>)
      reads this
    {
      && (forall a, b, d :: At(pairs, a, b, d) == Sort(Bucket(rows, a, b, d), ByKnowability))
      && currencies == CurrenciesOf(rows)
      && observationDates == SortedSet(DatesOf(rows))
    }

    constructor (rates: seq<Rate>, grade: Grade, maxCarryDays: nat, observationEnd: Option<Date>)
      requires UniqueVintages(iset r | r in rates)
      ensures Valid() && !loaded
      ensures this.rates == rates && this.grade == grade
      ensures this.maxCarryDays == maxCarryDays && this.observationEnd == observationEnd
    {
      this.rates, this.grade := rates, grade;
      this.maxCarryDays, this.observationEnd := maxCarryDays, observationEnd;
      loaded, pairs, currencies, observationDates := false, map[], {}, [];
    }

    method Load()
      requires Valid()
      modifies this
      ensures Valid() && loaded
    {
      if loaded { return; }
      var rows := Queried(rates, observationEnd);
      var slots, seen, dates := FileAll(rows);
      pairs, currencies, observationDates, loaded := SortedSlots(slots), seen, SortedSet(dates), true;
      forall a, b, d ensures At(pairs, a, b, d) == Sort(Bucket(rows, a, b, d), ByKnowability) {
        assert At(slots, a, b, d) == Bucket(rows, a, b, d);
      }
    }

    /** The rates a value dated `valueDate` may use through this converter. */
    ghost function VisibleRates(valueDate: Date): (v: set<Rate>)
      ensures Positive(v)
    {
      Visible(Queried(rates, observationEnd), grade, valueDate)
    }

    method Vintage(a: Currency, b: Currency, observation: Date, cutoff: Instant, ghost valueDate: Date)
      returns (r: Option<Rate>)
      requires Valid() && loaded && observation <= valueDate && cutoff == CutoffFor(valueDate)
      ensures r == Quote(VisibleRates(valueDate), a, b, observation)
    {
      var vintages := At(pairs, a, b, observation);
      ghost var rows := Queried(rates, observationEnd);
      var i := |vintages|;
      while i > 0
        invariant 0 <= i <= |vintages|
        invariant forall j :: i <= j < |vintages| ==> !Eligible(grade, vintages[j], cutoff)
      {
        i := i - 1;
        if Eligible(grade, vintages[i], cutoff) {
          LastEligibleIsNewest(rows, grade, valueDate, a, b, observation, i);
          return Some(vintages[i]);
        }
      }
      NothingEligible(rows, grade, valueDate, a, b, observation);
      r := None;
    }

    method SimpleLeg(a: Currency, b: Currency, observation: Date, cutoff: Instant, ghost valueDate: Date)
      returns (leg: Option<Candidate>)
      requires Valid() && loaded && observation <= valueDate && cutoff == CutoffFor(valueDate)
      ensures leg == Leg(VisibleRates(valueDate), a, b, observation)
    {
      var direct := Vintage(a, b, observation, cutoff, valueDate);
      if direct.Some? { return Some(DirectCandidate(direct.value)); }
      var inverse := Vintage(b, a, observation, cutoff, valueDate);
      if inverse.Some? {
        assert inverse.value in VisibleRates(valueDate);
        return Some(InverseCandidate(inverse.value));
      }
      leg := None;
    }

    method SimpleCandidates(a: Currency, b: Currency, observation: Date, cutoff: Instant, ghost valueDate: Date)
      returns (candidates: seq<Candidate>)
      requires Valid() && loaded && observation <= valueDate && cutoff == CutoffFor(valueDate)
      ensures forall c :: c in candidates <==>
        IsCandidate(VisibleRates(valueDate), a, b, observation, c) && !c.path.Cross?
    {
      candidates := [];
      var direct := Vintage(a, b, observation, cutoff, valueDate);
      if direct.Some? { candidates := candidates + [DirectCandidate(direct.value)]; }
      var inverse := Vintage(b, a, observation, cutoff, valueDate);
      if inverse.Some? {
        assert inverse.value in VisibleRates(valueDate);
        candidates := candidates + [InverseCandidate(inverse.value)];
      }
    }

    /** `a` to `b` through one pivot, if both legs exist. */
    method CrossThrough(a: Currency, b: Currency, observation: Date, cutoff: Instant, pivot: Currency,
                        ghost valueDate: Date)
      returns (found: Option<Candidate>)
      requires Valid() && loaded && observation <= valueDate && cutoff == CutoffFor(valueDate)
      ensures IsCross(VisibleRates(valueDate), a, b, observation, pivot, found)
    {
      if pivot == a || pivot == b {
        return None;
      }
      var first := SimpleLeg(a, pivot, observation, cutoff, valueDate);
      var second := SimpleLeg(pivot, b, observation, cutoff, valueDate);
      found := if first.Some? && second.Some? then Some(CrossCandidate(pivot, first.value, second.value)) else None;
    }

    method Candidates(a: Currency, b: Currency, observation: Date, cutoff: Instant, ghost valueDate: Date)
      returns (candidates: seq<Candidate>)
      requires Valid() && loaded && observation <= valueDate && cutoff == CutoffFor(valueDate)
      ensures AreCandidates(VisibleRates(valueDate), a, b, observation, candidates)
    {
      ghost var v := VisibleRates(valueDate);
      candidates := SimpleCandidates(a, b, observation, cutoff, valueDate);
      var pivots := SortedSet(AsInts(currencies));
      for k := 0 to |pivots|
        invariant CandidatesUpTo(v, a, b, observation, candidates, pivots, k)
      {
        assert pivots[k] in AsInts(currencies);
        var pivot: Currency := pivots[k];
        var found := CrossThrough(a, b, observation, cutoff, pivot, valueDate);
        TryPivot(v, a, b, observation, candidates, pivots, k, pivot, found);
        if found.Some? {
          candidates := candidates + [found.value];
        }
      }
      forall c | IsCandidate(v, a, b, observation, c) && c.path.Cross? ensures c.path.pivot in pivots {
        PivotsAreLoaded(a, b, observation, valueDate, c.path.pivot);
        assert (c.path.pivot as int) in AsInts(currencies);
      }
      assert pivots[..|pivots|] == pivots;
    }

    lemma PivotsAreLoaded(a: Currency, b: Currency, d: Date, valueDate: Date, p: Currency)
      requires Valid() && loaded && IsPivot(VisibleRates(valueDate), a, b, d, p)
      ensures p in currencies
    {
      var v := VisibleRates(valueDate);
      var leg := Quote(v, a, p, d);
      var r := if leg.Some? then leg.value else Quote(v, p, a, d).value;
      assert r in v;
    }

    method Derive(a: Currency, b: Currency, observation: Date, cutoff: Instant, ghost valueDate: Date)
      returns (r: Derived)
      requires Valid() && loaded && observation <= valueDate && cutoff == CutoffFor(valueDate)
      ensures r == DerivedOn(VisibleRates(valueDate), a, b, observation)
    {
      ghost var v := VisibleRates(valueDate);
      var candidates := Candidates(a, b, observation, cutoff, valueDate);
      if candidates == [] {
        PathIffCandidate(v, a, b, observation);
        return NoPath;
      }
      var sameRank, chosen := BestOf(candidates);
      var disagrees := AnyDisagrees(chosen, sameRank);
      BestIsDerived(v, a, b, observation, chosen);
      r := if disagrees then Disagreement else Chosen(chosen);
    }

    /** `conversion`. */
    method Convert(a: Currency, b: Currency, valueDate: Date) returns (outcome: Outcome)
      requires Valid()
      modifies this
      ensures Valid()
      ensures outcome == Conversion(VisibleRates(valueDate), a, b, valueDate, maxCarryDays)
    {
      if a == b { return Identity; }
      Load();
      var dated := observationDates[..BisectRight(observationDates, valueDate)];
      DatedCoversPaths(a, b, valueDate, dated);
      outcome := Search(a, b, valueDate, dated);
    }

    method Search(a: Currency, b: Currency, valueDate: Date, dated: seq<Date>) returns (outcome: Outcome)
      requires Valid() && loaded && a != b && Covers(VisibleRates(valueDate), a, b, valueDate, dated)
      ensures outcome == Conversion(VisibleRates(valueDate), a, b, valueDate, maxCarryDays)
    {
      var cutoff := CutoffFor(valueDate);
      ghost var v := VisibleRates(valueDate);
      var i, derived := Scan(a, b, valueDate, dated, cutoff);
      if derived != NoPath {
        FoundInside(v, a, b, valueDate, maxCarryDays, dated, i, derived);
        outcome := Inside(dated[i - 1], valueDate - dated[i - 1], derived);
      } else {
        var k := LookBack(a, b, valueDate, dated, cutoff, i);
        NotInside(v, a, b, valueDate, maxCarryDays, dated, k);
        outcome := if k > 0 then Stale(dated[k - 1]) else Missing;
      }
    }

    /** Dates newest first, up to the first with a path or beyond the carry window. */
    method Scan(a: Currency, b: Currency, valueDate: Date, dated: seq<Date>, cutoff: Instant)
      returns (i: nat, derived: Derived)
      requires Valid() && loaded && cutoff == CutoffFor(valueDate)
      requires forall d :: d in dated ==> d <= valueDate
      ensures Scanned(VisibleRates(valueDate), a, b, valueDate, maxCarryDays, dated, i, derived)
    {
      ghost var v := VisibleRates(valueDate);
      i, derived := |dated|, NoPath;
      while i > 0
        invariant i <= |dated| && derived == NoPath
        invariant PathlessFrom(v, a, b, dated, i)
      {
        assert dated[i - 1] in dated;
        if valueDate - dated[i - 1] > maxCarryDays { return; }
        derived := Derive(a, b, dated[i - 1], cutoff, valueDate);
        if derived != NoPath { return; }
        PathlessBefore(v, a, b, dated, i);
        i := i - 1;
      }
    }

    method AnyPath(a: Currency, b: Currency, observation: Date, cutoff: Instant, ghost valueDate: Date)
      returns (found: bool)
      requires Valid() && loaded && observation <= valueDate && cutoff == CutoffFor(valueDate)
      ensures found <==> HasPath(VisibleRates(valueDate), a, b, observation)
    {
      var candidates := Candidates(a, b, observation, cutoff, valueDate);
      PathIffCandidate(VisibleRates(valueDate), a, b, observation);
      found := candidates != [];
      if found {
        assert candidates[0] in candidates;
      }
    }

    /** All dates newest first again, for a path beyond the carry window that
        only makes the rate stale. */
    method LookBack(a: Currency, b: Currency, valueDate: Date, dated: seq<Date>, cutoff: Instant, ghost scanned: nat)
      returns (k: nat)
      requires Valid() && loaded && cutoff == CutoffFor(valueDate)
      requires Covers(VisibleRates(valueDate), a, b, valueDate, dated)
      requires Scanned(VisibleRates(valueDate), a, b, valueDate, maxCarryDays, dated, scanned, NoPath)
      ensures LookedBack(VisibleRates(valueDate), a, b, valueDate, maxCarryDays, dated, k)
    {
      ghost var v := VisibleRates(valueDate);
      k := |dated|;
      while k > 0
        invariant k <= |dated|
        invariant PathlessFrom(v, a, b, dated, k)
      {
        assert dated[k - 1] in dated;
        if valueDate - dated[k - 1] > maxCarryDays {
          var found := AnyPath(a, b, dated[k - 1], cutoff, valueDate);
          if found { return; }
        } else {
          InsideIsScanned(v, a, b, valueDate, maxCarryDays, dated, scanned, k - 1);
        }
        PathlessBefore(v, a, b, dated, k);
        k := k - 1;
      }
    }

    lemma DatedCoversPaths(a: Currency, b: Currency, valueDate: Date, dated: seq<Date>)
      requires Valid() && loaded
      requires dated == observationDates[..BisectRight(observationDates, valueDate)]
      ensures Covers(VisibleRates(valueDate), a, b, valueDate, dated)
    {
      var v := VisibleRates(valueDate);
      forall d | HasPath(v, a, b, d) ensures d in dated {
        PathHasRate(v, a, b, d);
        var r :| r in v && r.observation == d;
        assert d in observationDates;
        var k :| 0 <= k < |observationDates| && observationDates[k] == d;
        assert dated[k] == d;
      }
    }
  }

  lemma PathHasRate(v: set<Rate>, a: Currency, b: Currency, d: Date)
    requires Positive(v) && HasPath(v, a, b, d)
    ensures exists r :: r in v && r.observation == d
  {
    if Quote(v, a, b, d).Some? {
      assert Quote(v, a, b, d).value in v;
    } else if Quote(v, b, a, d).Some? {
      assert Quote(v, b, a, d).value in v;
    } else {
      var p :| IsLeastPivot(v, a, b, d, p);
      var r := if Quote(v, a, p, d).Some? then Quote(v, a, p, d).value else Quote(v, p, a, d).value;
      assert r in v;
    }
  }

  /** An ascending list of dates up to the valued one, with every date that has a path. */
  ghost predicate Covers(v: set<Rate>, a: Currency, b: Currency, valueDate: Date, dated: seq<Date>)
    requires Positive(v)
  {
    && Ascending(dated)
    && (forall d :: d in dated ==> d <= valueDate)
    && (forall d :: HasPath(v, a, b, d) ==> d in dated)
  }

  /** No date from position `k` on has a path. */
  ghost predicate PathlessFrom(v: set<Rate>, a: Currency, b: Currency, dated: seq<Date>, k: nat)
    requires Positive(v)
  {
    forall j :: k <= j < |dated| ==> !HasPath(v, a, b, dated[j])
  }

  lemma PathlessBefore(v: set<Rate>, a: Currency, b: Currency, dated: seq<Date>, k: nat)
    requires Positive(v) && 0 < k <= |dated| && PathlessFrom(v, a, b, dated, k) && !HasPath(v, a, b, dated[k - 1])
    ensures PathlessFrom(v, a, b, dated, k - 1)
  {
  }

  /** Scanning an ascending list of all path dates from its end finds the newest. */
  lemma NewestScanned(v: set<Rate>, a: Currency, b: Currency, valueDate: Date, dated: seq<Date>, i: nat)
    requires Positive(v) && Covers(v, a, b, valueDate, dated) && i < |dated|
    requires HasPath(v, a, b, dated[i]) && PathlessFrom(v, a, b, dated, i + 1)
    ensures IsNewestDate(v, a, b, dated[i])
  {
    forall d | HasPath(v, a, b, d) ensures d <= dated[i] {
      var j :| 0 <= j < |dated| && dated[j] == d;
    }
  }

  /** The scan ended at position i: with the derivation just before it, inside
      the carry window, or with nothing inside the window. */
  ghost predicate Scanned(v: set<Rate>, a: Currency, b: Currency, valueDate: Date, maxCarryDays: nat,
                          dated: seq<Date>, i: nat, derived: Derived)
    requires Positive(v)
  {
    && i <= |dated| && PathlessFrom(v, a, b, dated, i)
    && (derived != NoPath ==>
         i > 0 && valueDate - dated[i - 1] <= maxCarryDays && derived == DerivedOn(v, a, b, dated[i - 1]))
    && (derived == NoPath && i > 0 ==> valueDate - dated[i - 1] > maxCarryDays)
  }

  /** The second scan ended at position k, on a path beyond the window or at the start. */
  ghost predicate LookedBack(v: set<Rate>, a: Currency, b: Currency, valueDate: Date, maxCarryDays: nat,
                             dated: seq<Date>, k: nat)
    requires Positive(v)
  {
    && k <= |dated| && PathlessFrom(v, a, b, dated, k)
    && (k > 0 ==> valueDate - dated[k - 1] > maxCarryDays && HasPath(v, a, b, dated[k - 1]))
  }

  lemma FoundInside(v: set<Rate>, a: Currency, b: Currency, valueDate: Date, maxCarryDays: nat, dated: seq<Date>,
                    i: nat, derived: Derived)
    requires Positive(v) && Covers(v, a, b, valueDate, dated) && a != b && derived != NoPath
    requires Scanned(v, a, b, valueDate, maxCarryDays, dated, i, derived)
    ensures i > 0 && Conversion(v, a, b, valueDate, maxCarryDays) ==
      Inside(dated[i - 1], valueDate - dated[i - 1], derived)
  {
    NewestScanned(v, a, b, valueDate, dated, i - 1);
    ConversionAt(v, a, b, valueDate, maxCarryDays, dated[i - 1]);
  }

  lemma NotInside(v: set<Rate>, a: Currency, b: Currency, valueDate: Date, maxCarryDays: nat, dated: seq<Date>, k: nat)
    requires Positive(v) && Covers(v, a, b, valueDate, dated) && a != b
    requires LookedBack(v, a, b, valueDate, maxCarryDays, dated, k)
    ensures Conversion(v, a, b, valueDate, maxCarryDays) == if k > 0 then Stale(dated[k - 1]) else Missing
  {
    if k > 0 {
      NewestScanned(v, a, b, valueDate, dated, k - 1);
      ConversionAt(v, a, b, valueDate, maxCarryDays, dated[k - 1]);
    } else {
      NothingFound(v, a, b, dated);
    }
  }

  /** A date inside the carry window was scanned already. */
  lemma InsideIsScanned(v: set<Rate>, a: Currency, b: Currency, valueDate: Date, maxCarryDays: nat, dated: seq<Date>,
                        scanned: nat, k: nat)
    requires Positive(v) && Covers(v, a, b, valueDate, dated) && scanned <= |dated| && k < |dated|
    requires PathlessFrom(v, a, b, dated, scanned)
    requires scanned > 0 ==> valueDate - dated[scanned - 1] > maxCarryDays
    requires valueDate - dated[k] <= maxCarryDays
    ensures !HasPath(v, a, b, dated[k])
  {
  }

  lemma NothingFound(v: set<Rate>, a: Currency, b: Currency, dated: seq<Date>)
    requires Positive(v) && (forall d :: HasPath(v, a, b, d) ==> d in dated) && PathlessFrom(v, a, b, dated, 0)
    ensures forall d :: !HasPath(v, a, b, d)
  {
    forall d ensures !HasPath(v, a, b, d) {
      if d in dated {
        var j :| 0 <= j < |dated| && dated[j] == d;
      }
    }
  }

  // ---------------------------------------------------------------------
  // Non-interference
  // ---------------------------------------------------------------------

  /** Rows that a value dated `valueDate` must never see. */
  predicate Invisible(r: Rate, grade: Grade, valueDate: Date) {
    !Usable(r) || r.observation > valueDate || !Eligible(grade, r, CutoffFor(valueDate))
  }

  /** Stores that agree on what a valued date may see, and differ in later
      vintages, later observations or further pivot currencies however they
      like, give every conversion dated then the same outcome. */
  lemma LaterEvidenceIsIrrelevant(rates: seq<Rate>, others: seq<Rate>, grade: Grade, a: Currency, b: Currency,
                                  valueDate: Date, maxCarryDays: nat)
    requires forall r :: !Invisible(r, grade, valueDate) ==> (r in rates <==> r in others)
    ensures Conversion(Visible(others, grade, valueDate), a, b, valueDate, maxCarryDays)
         == Conversion(Visible(rates, grade, valueDate), a, b, valueDate, maxCarryDays)
  {
    assert Visible(others, grade, valueDate) == Visible(rates, grade, valueDate);
  }

  /** Bounding the load by an observation end at or after the valued date is invisible. */
  lemma ObservationEndIsIrrelevant(rates: seq<Rate>, end: Date, grade: Grade, valueDate: Date)
    requires end >= valueDate
    ensures Visible(Queried(rates, Some(end)), grade, valueDate) == Visible(Queried(rates, None), grade, valueDate)
  {
  }

  // ---------------------------------------------------------------------
  // Carry
  // ---------------------------------------------------------------------

  /** Tightening the carry never changes a decided conversion, except to refuse it as stale. */
  lemma TighterCarryKeepsOutcome(v: set<Rate>, a: Currency, b: Currency, valueDate: Date, tight: nat, wide: nat)
    requires Positive(v) && tight <= wide
    ensures
      var tighter := Conversion(v, a, b, valueDate, tight);
      var wider := Conversion(v, a, b, valueDate, wide);
      tighter == wider || (tighter.Stale? && !wider.Stale? && tighter.observation == wider.observation
                           && tight < valueDate - tighter.observation <= wide)
  {
    if d :| IsNewestDate(v, a, b, d) {
      NewestDateIsUnique(v, a, b);
    }
  }

  lemma {:induction false} NewestDateExists(v: set<Rate>, a: Currency, b: Currency, d: Date, latest: Date)
    requires Positive(v) && HasPath(v, a, b, d) && d <= latest
    requires forall e :: HasPath(v, a, b, e) ==> e <= latest
    ensures exists e :: IsNewestDate(v, a, b, e)
    decreases latest - d
  {
    if e :| HasPath(v, a, b, e) && e > d {
      NewestDateExists(v, a, b, e, latest);
    } else {
      assert IsNewestDate(v, a, b, d);
    }
  }

  /** A rate is stale iff some date has a path and every such date is beyond the
      carry window; it is missing iff no date has one. */
  lemma StaleAndMissingExactly(rates: seq<Rate>, grade: Grade, a: Currency, b: Currency, valueDate: Date,
                               maxCarryDays: nat)
    requires a != b
    ensures
      var v := Visible(rates, grade, valueDate);
      var outcome := Conversion(v, a, b, valueDate, maxCarryDays);
      && (outcome.Missing? <==> forall d :: !HasPath(v, a, b, d))
      && (outcome.Stale? <==> (exists d :: HasPath(v, a, b, d))
                              && forall d :: HasPath(v, a, b, d) ==> valueDate - d > maxCarryDays)
  {
    var v := Visible(rates, grade, valueDate);
    if d :| HasPath(v, a, b, d) {
      forall e | HasPath(v, a, b, e) ensures e <= valueDate { PathHasRate(v, a, b, e); }
      NewestDateExists(v, a, b, d, valueDate);
    }
  }

  // ---------------------------------------------------------------------
  // Reciprocity
  // ---------------------------------------------------------------------

  /** No pair is quoted both ways on one date. */
  ghost predicate SingleOrientation(v: set<Rate>) {
    forall r, s :: r in v && s in v && r.base == s.quote && r.quote == s.base ==> r.observation != s.observation
  }

  ghost predicate Mirrored(p: Path, q: Path) {
    match p
    case Direct => q == Inverse
    case Inverse => q == Direct
    case _ => q == p
  }

  /** The same evidence read the other way round: rates multiply to exactly 1. */
  ghost predicate Reciprocal(c: Candidate, e: Candidate) {
    && c.rate > 0.0 && e.rate > 0.0 && c.rate * e.rate == 1.0
    && Mirrored(c.path, e.path)
    && c.publishedAt == e.publishedAt && c.availableAt == e.availableAt && c.assetIds == e.assetIds
  }

  lemma InverseMultipliesToOne(x: real)
    requires x > 0.0
    ensures 1.0 / x > 0.0 && x * (1.0 / x) == 1.0 && (1.0 / x) * x == 1.0
  {
  }

  lemma QuoteIsVisible(v: set<Rate>, a: Currency, b: Currency, d: Date)
    ensures Quote(v, a, b, d).Some? ==>
      var r := Quote(v, a, b, d).value; r in v && r.base == a && r.quote == b && r.observation == d
  {
  }

  lemma LegsAreReciprocal(v: set<Rate>, a: Currency, b: Currency, d: Date)
    requires Positive(v) && SingleOrientation(v)
    ensures Leg(v, a, b, d).Some? <==> Leg(v, b, a, d).Some?
    ensures Leg(v, a, b, d).Some? ==> Reciprocal(Leg(v, a, b, d).value, Leg(v, b, a, d).value)
  {
    QuoteIsVisible(v, a, b, d);
    QuoteIsVisible(v, b, a, d);
    if Quote(v, a, b, d).Some? { InverseMultipliesToOne(Quote(v, a, b, d).value.value); }
    if Quote(v, b, a, d).Some? { InverseMultipliesToOne(Quote(v, b, a, d).value.value); }
  }

  lemma ProductsAreReciprocal(x: real, y: real, x': real, y': real)
    requires x > 0.0 && y > 0.0 && x' > 0.0 && y' > 0.0
    requires x * x' == 1.0 && y * y' == 1.0
    ensures x * y > 0.0 && y' * x' > 0.0 && (x * y) * (y' * x') == 1.0
  {
    assert (x * y) * (y' * x') == x * (y * y') * x';
  }

  lemma CrossOfReciprocals(p: Currency, first: Candidate, second: Candidate, home: Candidate, back: Candidate)
    requires Reciprocal(first, home) && Reciprocal(second, back)
    ensures Reciprocal(CrossCandidate(p, first, second), CrossCandidate(p, back, home))
  {
    ProductsAreReciprocal(first.rate, second.rate, home.rate, back.rate);
    assert first.assetIds + second.assetIds == back.assetIds + home.assetIds;
  }

  lemma CrossesAreReciprocal(v: set<Rate>, a: Currency, b: Currency, d: Date, p: Currency)
    requires Positive(v) && SingleOrientation(v)
    ensures IsPivot(v, a, b, d, p) <==> IsPivot(v, b, a, d, p)
    ensures IsPivot(v, a, b, d, p) ==> Reciprocal(Through(v, a, b, d, p), Through(v, b, a, d, p))
  {
    LegsAreReciprocal(v, a, p, d);
    LegsAreReciprocal(v, p, b, d);
    if IsPivot(v, a, b, d, p) {
      CrossOfReciprocals(p, Leg(v, a, p, d).value, Leg(v, p, b, d).value, Leg(v, p, a, d).value, Leg(v, b, p, d).value);
    }
  }

  lemma QuotientOf(n: real, m: real, t: real)
    requires m > 0.0 && t * m == n
    ensures n / m == t
  {
  }

  lemma FactorIsNonNegative(u: real, w: real)
    requires w > 0.0 && u * w >= 0.0
    ensures u >= 0.0
  {
  }

  lemma ProductIsNonNegative(u: real, w: real)
    requires u >= 0.0 && w >= 0.0
    ensures u * w >= 0.0
  {
  }

  lemma GapOverScale(x: real, y: real, x': real)
    requires x > 0.0 && x * x' == 1.0
    ensures (x - y) / x == 1.0 - y * x'
  {
    assert (1.0 - y * x') * x == x - y * (x * x');
    QuotientOf(x - y, x, 1.0 - y * x');
  }

  lemma ReciprocalsReverse(x: real, y: real, x': real, y': real)
    requires x >= y > 0.0 && x' > 0.0 && x * x' == 1.0 && y * y' == 1.0
    ensures y' >= x'
  {
    ProductIsNonNegative(x - y, x');
    assert (y' - x') * y == x * x' - y * x' == (x - y) * x';
    FactorIsNonNegative(y' - x', y);
  }

  lemma LargerReciprocal(x: real, y: real, x': real, y': real)
    requires x >= y > 0.0 && x' > 0.0 && y' > 0.0 && x * x' == 1.0 && y * y' == 1.0
    ensures y' >= x'
    ensures RelativeDifference(x, y) == RelativeDifference(x', y')
  {
    ReciprocalsReverse(x, y, x', y');
    GapOverScale(x, y, x');
    GapOverScale(y', x', y);
  }

  /** Relative disagreement is the same read either way round. */
  lemma DifferenceOfReciprocals(x: real, y: real, x': real, y': real)
    requires x > 0.0 && y > 0.0 && x' > 0.0 && y' > 0.0 && x * x' == 1.0 && y * y' == 1.0
    ensures RelativeDifference(x, y) == RelativeDifference(x', y')
  {
    if x >= y {
      LargerReciprocal(x, y, x', y');
    } else {
      LargerReciprocal(y, x, y', x');
    }
  }

  ghost predicate ReciprocalDerivations(x: Derived, y: Derived) {
    match x
    case NoPath => y == NoPath
    case Disagreement => y == Disagreement
    case Chosen(c) => y.Chosen? && Reciprocal(c, y.candidate)
  }

  lemma DisagreementIsSymmetric(v: set<Rate>, a: Currency, b: Currency, d: Date, p: Currency, q: Currency)
    requires Positive(v) && SingleOrientation(v)
    ensures Disagrees(v, a, b, d, p, q) <==> Disagrees(v, b, a, d, p, q)
  {
    CrossesAreReciprocal(v, a, b, d, p);
    CrossesAreReciprocal(v, a, b, d, q);
    if IsPivot(v, a, b, d, p) && IsPivot(v, a, b, d, q) {
      DifferenceOfReciprocals(Through(v, a, b, d, p).rate, Through(v, a, b, d, q).rate,
                              Through(v, b, a, d, p).rate, Through(v, b, a, d, q).rate);
    }
  }

  lemma DerivationsAreReciprocal(v: set<Rate>, a: Currency, b: Currency, d: Date)
    requires Positive(v) && SingleOrientation(v)
    ensures ReciprocalDerivations(DerivedOn(v, a, b, d), DerivedOn(v, b, a, d))
  {
    LegsAreReciprocal(v, a, b, d);
    QuoteIsVisible(v, a, b, d);
    QuoteIsVisible(v, b, a, d);
    if Quote(v, a, b, d).None? && Quote(v, b, a, d).None? {
      forall p ensures IsPivot(v, a, b, d, p) <==> IsPivot(v, b, a, d, p) {
        CrossesAreReciprocal(v, a, b, d, p);
      }
      forall p ensures IsLeastPivot(v, a, b, d, p) <==> IsLeastPivot(v, b, a, d, p) {}
      if p :| IsLeastPivot(v, a, b, d, p) {
        CrossesAreReciprocal(v, a, b, d, p);
        forall q ensures Disagrees(v, a, b, d, p, q) <==> Disagrees(v, b, a, d, p, q) {
          DisagreementIsSymmetric(v, a, b, d, p, q);
        }
      }
    }
  }

  ghost predicate SamePathDates(v: set<Rate>, a: Currency, b: Currency)
    requires Positive(v)
  {
    forall d :: HasPath(v, a, b, d) <==> HasPath(v, b, a, d)
  }

  lemma BothAt(v: set<Rate>, a: Currency, b: Currency, valueDate: Date, maxCarryDays: nat, d: Date)
    requires Positive(v) && a != b && SamePathDates(v, a, b) && IsNewestDate(v, a, b, d)
    ensures Conversion(v, a, b, valueDate, maxCarryDays) == OutcomeOn(v, a, b, valueDate, maxCarryDays, d)
    ensures Conversion(v, b, a, valueDate, maxCarryDays) == OutcomeOn(v, b, a, valueDate, maxCarryDays, d)
  {
    ConversionAt(v, a, b, valueDate, maxCarryDays, d);
    ConversionAt(v, b, a, valueDate, maxCarryDays, d);
  }

  lemma NoneBoth(v: set<Rate>, a: Currency, b: Currency)
    requires Positive(v) && SamePathDates(v, a, b) && forall d :: !IsNewestDate(v, a, b, d)
    ensures forall d :: !IsNewestDate(v, b, a, d)
  {
    forall d ensures !IsNewestDate(v, b, a, d) {
      assert !IsNewestDate(v, a, b, d);
    }
  }

  /** Converting back undoes converting: both directions succeed together with
      the same observation, carry and evidence and rates multiplying to exactly
      1, or fail together for the same reason on the same date. */
  lemma ConversionsAreReciprocal(v: set<Rate>, a: Currency, b: Currency, valueDate: Date, maxCarryDays: nat)
    requires Positive(v) && SingleOrientation(v)
    ensures
      var there := Conversion(v, a, b, valueDate, maxCarryDays);
      var back := Conversion(v, b, a, valueDate, maxCarryDays);
      match there
      case Converted(d, carry, c) =>
        back.Converted? && back.observation == d && back.carryDays == carry && Reciprocal(c, back.candidate)
      case _ => back == there
  {
    forall d ensures HasPath(v, a, b, d) <==> HasPath(v, b, a, d) {
      DerivationsAreReciprocal(v, a, b, d);
    }
    if a != b {
      if d :| IsNewestDate(v, a, b, d) {
        DerivationsAreReciprocal(v, a, b, d);
        BothAt(v, a, b, valueDate, maxCarryDays, d);
      } else {
        NoneBoth(v, a, b);
      }
    }
  }

  /** What the two newest quotes of a pair multiply to, when it is quoted both ways. */
  ghost function Imbalance(v: set<Rate>, x: Currency, y: Currency, d: Date): real {
    if Quote(v, x, y, d).Some? && Quote(v, y, x, d).Some?
    then Quote(v, x, y, d).value.value * Quote(v, y, x, d).value.value
    else 1.0
  }

  predicate Multiply(c: Candidate, e: Candidate, product: real) {
    c.rate * e.rate == product
  }

  lemma LegProduct(v: set<Rate>, x: Currency, y: Currency, d: Date)
    requires Positive(v)
    ensures Leg(v, x, y, d).Some? <==> Leg(v, y, x, d).Some?
    ensures Leg(v, x, y, d).Some? ==> Multiply(Leg(v, x, y, d).value, Leg(v, y, x, d).value, Imbalance(v, x, y, d))
  {
    QuoteIsVisible(v, x, y, d);
    QuoteIsVisible(v, y, x, d);
    if Quote(v, x, y, d).Some? { InverseMultipliesToOne(Quote(v, x, y, d).value.value); }
    if Quote(v, y, x, d).Some? { InverseMultipliesToOne(Quote(v, y, x, d).value.value); }
  }

  lemma ProductOfProducts(x: real, y: real, x': real, y': real)
    ensures (x * y) * (y' * x') == (x * x') * (y * y')
  {
    assert (x * y) * (y' * x') == x * (y * y') * x';
  }

  lemma CrossProduct(p: Currency, there: Candidate, back: Candidate, first: Candidate, second: Candidate,
                     home: Candidate, away: Candidate, s: real, t: real)
    requires there == CrossCandidate(p, first, second) && back == CrossCandidate(p, away, home)
    requires Multiply(first, home, s) && Multiply(second, away, t)
    ensures Multiply(there, back, s * t)
  {
    ProductOfProducts(first.rate, second.rate, home.rate, away.rate);
  }

  /** One leg there and back. */
  lemma LegPair(v: set<Rate>, x: Currency, y: Currency, d: Date) returns (there: Candidate, back: Candidate)
    requires Positive(v) && Leg(v, x, y, d).Some?
    ensures Leg(v, x, y, d) == Some(there) && Leg(v, y, x, d) == Some(back)
    ensures Multiply(there, back, Imbalance(v, x, y, d))
  {
    LegProduct(v, x, y, d);
    there, back := Leg(v, x, y, d).value, Leg(v, y, x, d).value;
  }

  lemma PivotLegs(v: set<Rate>, a: Currency, b: Currency, d: Date, p: Currency, first: Candidate, second: Candidate)
    requires Positive(v) && p != a && p != b
    requires Leg(v, a, p, d) == Some(first) && Leg(v, p, b, d) == Some(second)
    ensures IsPivot(v, a, b, d, p) && Through(v, a, b, d, p) == CrossCandidate(p, first, second)
  {
  }

  /** A cross there and back multiplies to the imbalances of its legs. */
  lemma CrossExact(v: set<Rate>, a: Currency, b: Currency, d: Date, p: Currency)
    requires Positive(v) && IsPivot(v, a, b, d, p)
    ensures IsPivot(v, b, a, d, p)
    ensures Multiply(Through(v, a, b, d, p), Through(v, b, a, d, p), Imbalance(v, a, p, d) * Imbalance(v, p, b, d))
  {
    var first, home := LegPair(v, a, p, d);
    var second, back := LegPair(v, p, b, d);
    PivotLegs(v, a, b, d, p, first, second);
    PivotLegs(v, b, a, d, p, back, home);
    CrossProduct(p, Through(v, a, b, d, p), Through(v, b, a, d, p), first, second, home, back,
      Imbalance(v, a, p, d), Imbalance(v, p, b, d));
  }

  lemma LeastPivotBack(v: set<Rate>, a: Currency, b: Currency, d: Date)
    requires Positive(v)
    ensures forall p :: IsLeastPivot(v, a, b, d, p) <==> IsLeastPivot(v, b, a, d, p)
  {
    forall p ensures IsPivot(v, a, b, d, p) <==> IsPivot(v, b, a, d, p) {
      LegProduct(v, a, p, d);
      LegProduct(v, p, b, d);
    }
  }

  /** The imbalance of the pair if it is quoted, else those of the two legs
      through the least pivot. */
  ghost function PathImbalance(v: set<Rate>, a: Currency, b: Currency, d: Date): real
    requires Positive(v)
  {
    if Quote(v, a, b, d).Some? || Quote(v, b, a, d).Some? then Imbalance(v, a, b, d)
    else if exists p :: IsLeastPivot(v, a, b, d, p) then
      var p :| IsLeastPivot(v, a, b, d, p);
      Imbalance(v, a, p, d) * Imbalance(v, p, b, d)
    else 1.0
  }

  lemma DerivationsExactly(v: set<Rate>, a: Currency, b: Currency, d: Date)
    requires Positive(v) && DerivedOn(v, a, b, d).Chosen? && DerivedOn(v, b, a, d).Chosen?
    ensures Multiply(DerivedOn(v, a, b, d).candidate, DerivedOn(v, b, a, d).candidate, PathImbalance(v, a, b, d))
  {
    if Quote(v, a, b, d).Some? || Quote(v, b, a, d).Some? {
      LegProduct(v, a, b, d);
    } else {
      LeastPivotBack(v, a, b, d);
      var p :| IsLeastPivot(v, a, b, d, p);
      CrossExact(v, a, b, d, p);
    }
  }

  lemma PathsBack(v: set<Rate>, a: Currency, b: Currency, d: Date)
    requires Positive(v)
    ensures HasPath(v, a, b, d) <==> HasPath(v, b, a, d)
  {
    LeastPivotBack(v, a, b, d);
  }

  /** For any quotes, pairs quoted both ways included: the two directions are
      missing or stale together, and where both succeed they use one date and
      their rates multiply to the imbalance of their path, so converting back
      undoes converting exactly when that imbalance is 1. */
  lemma RoundTripsExactly(v: set<Rate>, a: Currency, b: Currency, valueDate: Date, maxCarryDays: nat)
    requires Positive(v)
    ensures
      var there := Conversion(v, a, b, valueDate, maxCarryDays);
      var back := Conversion(v, b, a, valueDate, maxCarryDays);
      && (there.Missing? || there.Stale? ==> back == there)
      && (there.Converted? && back.Converted? ==>
            && there.observation == back.observation
            && Multiply(there.candidate, back.candidate, PathImbalance(v, a, b, there.observation))
            && (Multiply(there.candidate, back.candidate, 1.0) <==> PathImbalance(v, a, b, there.observation) == 1.0))
  {
    forall d ensures HasPath(v, a, b, d) <==> HasPath(v, b, a, d) {
      PathsBack(v, a, b, d);
    }
    if a != b {
      if d :| IsNewestDate(v, a, b, d) {
        BothAt(v, a, b, valueDate, maxCarryDays, d);
        if DerivedOn(v, a, b, d).Chosen? && DerivedOn(v, b, a, d).Chosen? {
          DerivationsExactly(v, a, b, d);
        }
      } else {
        NoneBoth(v, a, b);
      }
    }
  }

  lemma ProductIsPositive(u: real, w: real)
    requires u > 0.0 && w > 0.0
    ensures u * w > 0.0
  {
  }

  /** What a product of 1 would make of c: c over the product it has with e. */
  lemma OverProduct(c: real, e: real, product: real)
    requires c > 0.0 && e > 0.0 && c * e == product
    ensures product > 0.0 && c / product > 0.0 && e * (c / product) == 1.0
  {
    ProductIsPositive(c, e);
    QuotientOf(c, product, 1.0 / e);
    InverseMultipliesToOne(e);
  }

  ghost function LegImbalance(v: set<Rate>, a: Currency, b: Currency, d: Date, p: Currency): real {
    Imbalance(v, a, p, d) * Imbalance(v, p, b, d)
  }

  /** A cross rate with the imbalance of its legs taken out. */
  ghost function Settled(v: set<Rate>, a: Currency, b: Currency, d: Date, p: Currency): real
    requires Positive(v) && IsPivot(v, a, b, d, p)
  {
    if LegImbalance(v, a, b, d, p) == 0.0 then 0.0 else Through(v, a, b, d, p).rate / LegImbalance(v, a, b, d, p)
  }

  lemma SettledUndoes(v: set<Rate>, a: Currency, b: Currency, d: Date, p: Currency)
    requires Positive(v) && IsPivot(v, a, b, d, p)
    ensures IsPivot(v, b, a, d, p) && Settled(v, a, b, d, p) > 0.0 && Through(v, b, a, d, p).rate > 0.0
    ensures Through(v, b, a, d, p).rate * Settled(v, a, b, d, p) == 1.0
  {
    CrossExact(v, a, b, d, p);
    CrossIsPositive(v, a, b, d, p);
    CrossIsPositive(v, b, a, d, p);
    OverProduct(Through(v, a, b, d, p).rate, Through(v, b, a, d, p).rate, LegImbalance(v, a, b, d, p));
  }

  lemma DisagreesBack(v: set<Rate>, a: Currency, b: Currency, d: Date, p: Currency, q: Currency)
    requires Positive(v) && IsPivot(v, a, b, d, p) && IsPivot(v, a, b, d, q)
    ensures Disagrees(v, b, a, d, p, q) <==>
      RelativeDifference(Settled(v, a, b, d, p), Settled(v, a, b, d, q)) > PATH_AGREEMENT_TOLERANCE
  {
    SettledUndoes(v, a, b, d, p);
    SettledUndoes(v, a, b, d, q);
    DifferenceOfReciprocals(Through(v, b, a, d, p).rate, Through(v, b, a, d, q).rate,
      Settled(v, a, b, d, p), Settled(v, a, b, d, q));
  }

  /** A cross from b back to a is ambiguous exactly when the crosses from a to b
      disagree once the imbalances of their legs are taken out. */
  lemma AmbiguousBackExactly(v: set<Rate>, a: Currency, b: Currency, d: Date, p: Currency)
    requires Positive(v) && Quote(v, a, b, d).None? && Quote(v, b, a, d).None? && IsLeastPivot(v, a, b, d, p)
    ensures DerivedOn(v, b, a, d).Disagreement? <==>
      exists q :: IsPivot(v, a, b, d, q)
        && RelativeDifference(Settled(v, a, b, d, p), Settled(v, a, b, d, q)) > PATH_AGREEMENT_TOLERANCE
  {
    LeastPivotBack(v, a, b, d);
    forall q
      ensures Disagrees(v, b, a, d, p, q) <==>
        IsPivot(v, a, b, d, q)
        && RelativeDifference(Settled(v, a, b, d, p), Settled(v, a, b, d, q)) > PATH_AGREEMENT_TOLERANCE
    {
      PivotBack(v, a, b, d, q);
      if IsPivot(v, a, b, d, q) {
        DisagreesBack(v, a, b, d, p, q);
      }
    }
  }

  lemma PivotBack(v: set<Rate>, a: Currency, b: Currency, d: Date, p: Currency)
    requires Positive(v)
    ensures IsPivot(v, a, b, d, p) <==> IsPivot(v, b, a, d, p)
  {
    LegProduct(v, a, p, d);
    LegProduct(v, p, b, d);
  }

  /** A pair quoted at 2.0 one way and at 0.4 the other is converted by each quote
      in its own direction, and a round trip loses a fifth. */
  lemma RoundTripCanFail(d: Date, carry: nat)
    ensures exists rates: seq<Rate>, a: Currency, b: Currency ::
      var v := Visible(rates, Research, d);
      var there, back := Conversion(v, a, b, d, carry), Conversion(v, b, a, d, carry);
      && UniqueVintages(iset r | r in rates) && there.Converted? && back.Converted?
      && Multiply(there.candidate, back.candidate, 0.8) && PathImbalance(v, a, b, there.observation) != 1.0
  {
    var at := CutoffFor(d);
    var r, s := Rate(0, 1, d, 2.0, at, at, at, at, 0), Rate(1, 0, d, 0.4, at, at, at, at, 1);
    var rates := [r, s];
    var v := Visible(rates, Research, d);
    assert rates[0] in rates && rates[1] in rates && v == {r, s};
    QuotedBothWays(v, r, s, d);
    assert IsNewestDate(v, 0, 1, d);
    PathsBackEverywhere(v, 0, 1);
    BothAt(v, 0, 1, d, carry, d);
    assert UniqueVintages(iset r | r in rates);
  }

  lemma PathsBackEverywhere(v: set<Rate>, a: Currency, b: Currency)
    requires Positive(v)
    ensures SamePathDates(v, a, b)
  {
    forall d ensures HasPath(v, a, b, d) <==> HasPath(v, b, a, d) {
      PathsBack(v, a, b, d);
    }
  }

  /** Two opposite quotes alone: each direction has its own, and no other date counts. */
  lemma QuotedBothWays(v: set<Rate>, r: Rate, s: Rate, d: Date)
    requires v == {r, s} && Positive(v) && r.base == s.quote && r.quote == s.base && r.observation == s.observation == d
    ensures Quote(v, r.base, r.quote, d) == Some(r) && Quote(v, s.base, s.quote, d) == Some(s)
    ensures IsNewestDate(v, r.base, r.quote, d)
  {
    assert IsNewestQuote(v, r.base, r.quote, d, r) && IsNewestQuote(v, s.base, s.quote, d, s);
    forall e | HasPath(v, r.base, r.quote, e) ensures e == d {
      PathHasRate(v, r.base, r.quote, e);
    }
  }

  // ---------------------------------------------------------------------
  // Agreement of equally ranked paths
  // ---------------------------------------------------------------------

  lemma WithinTolerance(x: real, y: real, t: real)
    requires x > 0.0 && y > 0.0 && 0.0 <= t < 1.0 && RelativeDifference(x, y) <= t
    ensures x * (1.0 - t) <= y && y * (1.0 - t) <= x
  {
    var scale := if x >= y then x else y;
    var gap := Abs(x - y);
    assert gap / scale <= t;
    assert gap == (gap / scale) * scale <= t * scale;
  }

  /** Two rates each within t of a third are within 2t - t^2 of each other. */
  lemma AgreementComposes(c: real, x: real, y: real, t: real)
    requires c > 0.0 && x > 0.0 && y > 0.0 && 0.0 <= t < 1.0
    requires RelativeDifference(c, x) <= t && RelativeDifference(c, y) <= t
    ensures RelativeDifference(x, y) <= 2.0 * t - t * t
  {
    WithinTolerance(c, x, t);
    WithinTolerance(c, y, t);
    if x >= y {
      RatioBound(x, c, y, 1.0 - t);
    } else {
      RatioBound(y, c, x, 1.0 - t);
    }
    assert 1.0 - (1.0 - t) * (1.0 - t) == 2.0 * t - t * t;
  }

  lemma ScaleBoth(a: real, b: real, u: real)
    requires a <= b && u >= 0.0
    ensures a * u <= b * u
  {
  }

  lemma RatioBound(hi: real, c: real, lo: real, u: real)
    requires hi >= lo > 0.0 && u >= 0.0 && hi * u <= c && c * u <= lo
    ensures RelativeDifference(hi, lo) <= 1.0 - u * u && RelativeDifference(lo, hi) <= 1.0 - u * u
  {
    ScaleBoth(hi * u, c, u);
    var s := u * u;
    assert hi * s == (hi * u) * u <= lo;
    DivideBy(hi - lo, hi, 1.0 - s);
  }

  lemma DivideBy(n: real, m: real, t: real)
    requires m > 0.0 && n <= m * t
    ensures n / m <= t
  {
    if n / m > t {
      ScaleStrictly(t, n / m, m);
      assert false;
    }
  }

  lemma ScaleStrictly(a: real, b: real, u: real)
    requires a < b && u > 0.0
    ensures a * u < b * u
  {
  }

  /** A cross rate that is returned agrees with every other pivot's rate within
      the tolerance, so no two pivots differ by more than twice it. */
  lemma AcceptedCrossesAgree(v: set<Rate>, a: Currency, b: Currency, d: Date, p: Currency, q: Currency)
    requires Positive(v) && DerivedOn(v, a, b, d).Chosen? && DerivedOn(v, a, b, d).candidate.path.Cross?
    requires IsPivot(v, a, b, d, p) && IsPivot(v, a, b, d, q)
    ensures RelativeDifference(DerivedOn(v, a, b, d).candidate.rate, Through(v, a, b, d, p).rate)
      <= PATH_AGREEMENT_TOLERANCE
    ensures RelativeDifference(Through(v, a, b, d, p).rate, Through(v, a, b, d, q).rate)
         <= 2.0 * PATH_AGREEMENT_TOLERANCE - PATH_AGREEMENT_TOLERANCE * PATH_AGREEMENT_TOLERANCE
  {
    var c: Currency :| IsLeastPivot(v, a, b, d, c);
    assert !Disagrees(v, a, b, d, c, p) && !Disagrees(v, a, b, d, c, q);
    CrossIsPositive(v, a, b, d, c);
    CrossIsPositive(v, a, b, d, p);
    CrossIsPositive(v, a, b, d, q);
    AgreementComposes(Through(v, a, b, d, c).rate, Through(v, a, b, d, p).rate, Through(v, a, b, d, q).rate,
      PATH_AGREEMENT_TOLERANCE);
  }

  lemma CrossIsPositive(v: set<Rate>, a: Currency, b: Currency, d: Date, p: Currency)
    requires Positive(v) && IsPivot(v, a, b, d, p)
    ensures Through(v, a, b, d, p).rate > 0.0
  {
    LegIsPositive(v, a, p, d);
    LegIsPositive(v, p, b, d);
  }

  lemma LegIsPositive(v: set<Rate>, a: Currency, b: Currency, d: Date)
    requires Positive(v) && Leg(v, a, b, d).Some?
    ensures Leg(v, a, b, d).value.rate > 0.0
  {
    QuoteIsVisible(v, a, b, d);
    QuoteIsVisible(v, b, a, d);
  }
}