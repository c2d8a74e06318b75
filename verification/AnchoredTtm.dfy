/** Newest-quarter anchored trailing twelve months of one concept
    (sec_fundamentals.py, the `us-sec-long-v3` path): the filing that controls an
    observation, the alias series, the anchor alias and its four-quarter tail. */
module AnchoredTtm {
  import opened Wrappers
  import opened Sorting
  import opened IntegerSets
  import opened Grouping
  import opened VintageSelection
  import opened QuarterSeries
  import opened QuarterCandidates

  // ---------------------------------------------------------------------
  // The controlling filing and the selected observation
  // ---------------------------------------------------------------------

  /** Facts by primary key, alias priorities, and the SHA-256 identity of an
      observation (an opaque number in its hexadecimal order). */
  datatype Evidence = Evidence(facts: map<nat, Fact>, priority: Priorities, identify: Quarter -> nat)

  function Readable(sources: seq<nat>, facts: map<nat, Fact>): seq<Fact> {
    if sources == [] then []
    else
      var rest := Readable(sources[..|sources| - 1], facts);
      var id := sources[|sources| - 1];
      if id in facts then rest + [facts[id]] else rest
  }

  /** Of the facts of highest rank, the first. */
  function TopFact(facts: seq<Fact>, priority: Priorities): Fact
    requires facts != []
  {
    if |facts| == 1 then facts[0]
    else
      var before := TopFact(facts[..|facts| - 1], priority);
      var last := facts[|facts| - 1];
      if Above(RankOf(last, priority), RankOf(before, priority)) then last else before
  }

  lemma {:induction false} TopFactIsTop(facts: seq<Fact>, priority: Priorities)
    requires facts != []
    ensures TopFact(facts, priority) in facts
    ensures forall f :: f in facts ==> !Above(RankOf(f, priority), RankOf(TopFact(facts, priority), priority))
  {
    if |facts| > 1 {
      var front := facts[..|facts| - 1];
      assert facts == front + [facts[|facts| - 1]];
      TopFactIsTop(front, priority);
    }
  }

  function Controlling(q: Quarter, ev: Evidence): Option<Fact> {
    var facts := Readable(q.sources, ev.facts);
    if facts == [] then None else Some(TopFact(facts, ev.priority))
  }

  /** Whether the rank of observation a is above that of b. */
  predicate Outranks(a: Quarter, b: Quarter, ev: Evidence) {
    match (Controlling(a, ev), Controlling(b, ev))
    case (None, None) => ev.identify(a) > ev.identify(b)
    case (None, Some(_)) => false
    case (Some(_), None) => true
    case (Some(f), Some(g)) =>
      Above(RankOf(f, ev.priority), RankOf(g, ev.priority))
      || (RankOf(f, ev.priority) == RankOf(g, ev.priority) && ev.identify(a) > ev.identify(b))
  }

  /** `_v3_select_quarter_observation`. */
  function SelectObservation(values: seq<Quarter>, ev: Evidence): Quarter
    requires values != []
  {
    if |values| == 1 then values[0]
    else
      var before := SelectObservation(values[..|values| - 1], ev);
      var last := values[|values| - 1];
      if Outranks(last, before, ev) then last else before
  }

  lemma OutranksIsTransitive(a: Quarter, b: Quarter, c: Quarter, ev: Evidence)
    requires !Outranks(a, b, ev) && Outranks(c, b, ev)
    ensures !Outranks(a, c, ev)
  {
  }

  /** The selected observation is one of the candidates, and none outranks it. */
  lemma {:induction false} SelectionIsTop(values: seq<Quarter>, ev: Evidence)
    requires values != []
    ensures SelectObservation(values, ev) in values
    ensures forall q :: q in values ==> !Outranks(q, SelectObservation(values, ev), ev)
  {
    if |values| > 1 {
      var front := values[..|values| - 1];
      var last := values[|values| - 1];
      var before := SelectObservation(front, ev);
      assert values == front + [last];
      SelectionIsTop(front, ev);
      forall q | q in front && Outranks(last, before, ev)
        ensures !Outranks(q, last, ev)
      {
        OutranksIsTransitive(q, before, last, ev);
      }
    }
  }

  // ---------------------------------------------------------------------
  // One alias's quarter series
  // ---------------------------------------------------------------------

  /** The selected observation of one quarter end. */
  function Winner(candidates: seq<Quarter>, end: Date, ev: Evidence): Quarter
    requires end in Keys(candidates, EndOf)
  {
    GroupsFound(candidates, EndOf, end);
    SelectObservation(Filter(candidates, EndOf, end), ev)
  }

  lemma WinnerIsTop(candidates: seq<Quarter>, end: Date, ev: Evidence)
    requires end in Keys(candidates, EndOf)
    ensures Winner(candidates, end, ev) in candidates && Winner(candidates, end, ev).end == end
    ensures forall c :: c in candidates && c.end == end ==> !Outranks(c, Winner(candidates, end, ev), ev)
  {
    GroupsFound(candidates, EndOf, end);
    FilterMembers(candidates, EndOf, end);
    SelectionIsTop(Filter(candidates, EndOf, end), ev);
  }

  function Winners(candidates: seq<Quarter>, ends: seq<Date>, ev: Evidence): (values: seq<Quarter>)
    requires forall e :: e in ends ==> e in Keys(candidates, EndOf)
    ensures |values| == |ends|
  {
    if ends == [] then []
    else
      assert ends[|ends| - 1] in ends;
      Winners(candidates, ends[..|ends| - 1], ev) + [Winner(candidates, ends[|ends| - 1], ev)]
  }

  function Ends(candidates: seq<Quarter>): (ends: seq<Date>)
    ensures forall e :: e in ends ==> e in Keys(candidates, EndOf)
  {
    SortedSet(Grouped(candidates, EndOf).Keys)
  }

  /** One observation per quarter end, ends ascending. */
  function OnePerEnd(candidates: seq<Quarter>, ev: Evidence): seq<Quarter> {
    Winners(candidates, Ends(candidates), ev)
  }

  ghost predicate QuartersAscend(values: seq<Quarter>) {
    forall i, j :: 0 <= i < j < |values| ==> values[i].end < values[j].end
  }

  ghost predicate OnePerEndHolds(candidates: seq<Quarter>, values: seq<Quarter>, ev: Evidence) {
    && QuartersAscend(values)
    && (forall q :: q in values ==> q in candidates)
    && (forall c :: c in candidates ==> exists q :: q in values && q.end == c.end && !Outranks(c, q, ev))
  }

  lemma {:induction false} WinnerAt(candidates: seq<Quarter>, ends: seq<Date>, ev: Evidence, i: nat)
    requires forall e :: e in ends ==> e in Keys(candidates, EndOf)
    requires i < |ends|
    ensures ends[i] in Keys(candidates, EndOf)
    ensures Winners(candidates, ends, ev)[i] == Winner(candidates, ends[i], ev)
  {
    var e := ends[i];
    assert e in ends;
    assert e in Keys(candidates, EndOf);
    if i < |ends| - 1 {
      WinnerAt(candidates, ends[..|ends| - 1], ev, i);
    }
  }

  ghost predicate TopAt(candidates: seq<Quarter>, q: Quarter, end: Date, ev: Evidence) {
    q in candidates && q.end == end && forall c :: c in candidates && c.end == end ==> !Outranks(c, q, ev)
  }

  lemma SeriesTopAt(candidates: seq<Quarter>, ev: Evidence, i: nat)
    requires i < |Ends(candidates)|
    ensures TopAt(candidates, OnePerEnd(candidates, ev)[i], Ends(candidates)[i], ev)
  {
    WinnerAt(candidates, Ends(candidates), ev, i);
    WinnerIsTop(candidates, Ends(candidates)[i], ev);
  }

  lemma EndsAreAll(candidates: seq<Quarter>)
    ensures Ascending(Ends(candidates))
    ensures forall c :: c in candidates ==> c.end in Ends(candidates)
  {
    KeysMembers(candidates, EndOf);
    forall c | c in candidates
      ensures c.end in Ends(candidates)
    {
      assert EndOf(c) in Keys(candidates, EndOf);
    }
  }

  lemma TopsCover(candidates: seq<Quarter>, ends: seq<Date>, values: seq<Quarter>, ev: Evidence, c: Quarter)
    requires |ends| == |values| && c in candidates && c.end in ends
    requires forall i :: 0 <= i < |ends| ==> TopAt(candidates, values[i], ends[i], ev)
    ensures exists q :: q in values && q.end == c.end && !Outranks(c, q, ev)
  {
    var i :| 0 <= i < |ends| && ends[i] == c.end;
    assert TopAt(candidates, values[i], ends[i], ev);
    assert values[i] in values;
  }

  lemma TopsAscend(candidates: seq<Quarter>, ends: seq<Date>, values: seq<Quarter>, ev: Evidence)
    requires |ends| == |values| && Ascending(ends)
    requires forall i :: 0 <= i < |ends| ==> TopAt(candidates, values[i], ends[i], ev)
    ensures QuartersAscend(values)
    ensures forall q :: q in values ==> q in candidates
  {
    forall i, j | 0 <= i < j < |values|
      ensures values[i].end < values[j].end
    {
      assert TopAt(candidates, values[i], ends[i], ev) && TopAt(candidates, values[j], ends[j], ev);
    }
  }

  /** The series has exactly the candidates' ends, each with a top observation. */
  lemma OnePerEndIsRight(candidates: seq<Quarter>, ev: Evidence)
    ensures OnePerEndHolds(candidates, OnePerEnd(candidates, ev), ev)
  {
    var ends := Ends(candidates);
    var values := OnePerEnd(candidates, ev);
    EndsAreAll(candidates);
    forall i | 0 <= i < |ends|
      ensures TopAt(candidates, values[i], ends[i], ev)
    {
      SeriesTopAt(candidates, ev, i);
    }
    TopsAscend(candidates, ends, values, ev);
    forall c | c in candidates
      ensures exists q :: q in values && q.end == c.end && !Outranks(c, q, ev)
    {
      TopsCover(candidates, ends, values, ev, c);
    }
  }

  lemma NextWinner(all: seq<Quarter>, i: nat, ev: Evidence)
    requires i < |Ends(all)|
    ensures var ends := Ends(all);
      && ends[i] in Keys(all, EndOf)
      && (forall e :: e in ends[..i] ==> e in Keys(all, EndOf))
      && (forall e :: e in ends[..i + 1] ==> e in Keys(all, EndOf))
      && Winners(all, ends[..i + 1], ev) == Winners(all, ends[..i], ev) + [Winner(all, ends[i], ev)]
  {
    var ends := Ends(all);
    assert ends[i] in ends;
    assert ends[..i + 1][..i] == ends[..i];
  }

  /** The comprehension over the sorted quarter ends. */
  method SelectPerEnd(ghost all: seq<Quarter>, candidates: map<Date, seq<Quarter>>, ev: Evidence)
    returns (values: seq<Quarter>)
    requires candidates == Grouped(all, EndOf)
    ensures values == OnePerEnd(all, ev)
  {
    var ends := SortedSet(candidates.Keys);
    assert ends == Ends(all);
    values := [];
    var i: nat := 0;
    while i < |ends|
      invariant i <= |ends|
      invariant forall e :: e in ends[..i] ==> e in Keys(all, EndOf)
      invariant values == Winners(all, ends[..i], ev)
    {
      NextWinner(all, i, ev);
      GroupsFound(all, EndOf, ends[i]);
      values := values + [SelectObservation(candidates[ends[i]], ev)];
      i := i + 1;
    }
    assert ends[..|ends|] == ends;
  }

  /** `_v3_alias_quarter_series`'s values. */
  method AliasQuarterSeries(selected: seq<Fact>, concept: nat, kind: Kind, ev: Evidence) returns (values: seq<Quarter>)
    ensures values == OnePerEnd(AllCandidates(selected, concept, kind), ev)
  {
    var candidates := AliasQuarterCandidates(selected, concept, kind);
    values := SelectPerEnd(AllCandidates(selected, concept, kind), candidates, ev);
  }

  // ---------------------------------------------------------------------
  // The tail and the trailing value
  // ---------------------------------------------------------------------

  function Through(values: seq<Quarter>, through: Date): seq<Quarter> {
    if values == [] then []
    else
      var rest := Through(values[..|values| - 1], through);
      if values[|values| - 1].end <= through then rest + [values[|values| - 1]] else rest
  }

  predicate Compatible(window: seq<Quarter>) {
    && (forall q :: q in window ==> q.unit == window[0].unit)
    && (forall q :: q in window ==> q.aliases == window[0].aliases)
  }

  function Span(window: seq<Quarter>): int
    requires window != []
  {
    window[|window| - 1].end - window[0].start + 1
  }

  /** `_homogeneous_four_quarter_tail`. */
  function HomogeneousTail(values: seq<Quarter>, through: Date): (tail: Option<seq<Quarter>>)
    ensures tail.Some? ==> |tail.value| == 4
  {
    var eligible := Through(values, through);
    if |eligible| < 4 then None
    else
      var window := eligible[|eligible| - 4..];
      if window[3].end != through || !Contiguous(window) || !Compatible(window)
         || !(MIN_ANNUAL_DAYS <= Span(window) <= MAX_ANNUAL_DAYS)
      then None
      else Some(window)
  }

  function AllSources(window: seq<Quarter>): seq<nat> {
    if window == [] then [] else AllSources(window[..|window| - 1]) + window[|window| - 1].sources
  }

  function Itself(id: nat): nat { id }

  /** `_ttm_value`. */
  function TtmValue(kind: Kind, window: seq<Quarter>): Quarter
    requires window != [] && (kind == Additive || TotalDays(window) != 0)
  {
    var last := window[|window| - 1];
    Quarter(TtmAmount(kind, window), last.unit, window[0].start, last.end, LatestAvailable(window),
            Keys(AllSources(window), Itself), last.aliases, true)
  }

  // ---------------------------------------------------------------------
  // The anchor
  // ---------------------------------------------------------------------

  datatype AliasQuarters = AliasQuarters(alias: int, values: seq<Quarter>)

  predicate Usable(rows: seq<AliasQuarters>) {
    forall row :: row in rows ==> row.values != []
  }

  function LastEnd(row: AliasQuarters): Date
    requires row.values != []
  {
    row.values[|row.values| - 1].end
  }

  function Newest(rows: seq<AliasQuarters>): Date
    requires rows != [] && Usable(rows)
  {
    var front := rows[..|rows| - 1];
    var last := rows[|rows| - 1];
    assert last in rows;
    if front == [] then LastEnd(last) else Max(Newest(front), LastEnd(last))
  }

  lemma {:induction false} NewestIsLast(rows: seq<AliasQuarters>)
    requires rows != [] && Usable(rows)
    ensures exists j :: 0 <= j < |rows| && LastEnd(rows[j]) == Newest(rows)
    ensures forall j :: 0 <= j < |rows| ==> LastEnd(rows[j]) <= Newest(rows)
  {
    var front := rows[..|rows| - 1];
    assert rows[|rows| - 1] in rows;
    if front != [] {
      NewestIsLast(front);
      var j :| 0 <= j < |front| && LastEnd(front[j]) == Newest(front);
      assert rows[j] == front[j];
      assert forall k :: 0 <= k < |front| ==> rows[k] == front[k];
    }
  }

  /** The last of the values that end then. */
  function LastAt(values: seq<Quarter>, end: Date): Option<Quarter> {
    if values == [] then None
    else if values[|values| - 1].end == end then Some(values[|values| - 1])
    else LastAt(values[..|values| - 1], end)
  }

  /** The controlling rank of an alias's newest-quarter observation. */
  function AnchorRank(row: AliasQuarters, newest: Date, ev: Evidence): Option<Rank> {
    match LastAt(row.values, newest)
    case None => None
    case Some(q) =>
      match Controlling(q, ev)
      case None => None
      case Some(f) => Some(RankOf(f, ev.priority))
  }

  /** Of the aliases that rank at the newest quarter, the first of the highest. */
  ghost predicate IsAnchor(rows: seq<AliasQuarters>, newest: Date, ev: Evidence, a: nat) {
    && a < |rows|
    && AnchorRank(rows[a], newest, ev).Some?
    && forall j :: 0 <= j < |rows| && AnchorRank(rows[j], newest, ev).Some? ==>
         var mine, other := AnchorRank(rows[a], newest, ev).value, AnchorRank(rows[j], newest, ev).value;
         !Above(other, mine) && (j < a ==> Above(mine, other))
  }

  ghost function AnchorOf(rows: seq<AliasQuarters>, newest: Date, ev: Evidence): (anchor: Option<nat>)
    ensures anchor.Some? ==> IsAnchor(rows, newest, ev, anchor.value)
  {
    if a: nat :| IsAnchor(rows, newest, ev, a) then Some(a) else None
  }

  lemma AnchorIsUnique(rows: seq<AliasQuarters>, newest: Date, ev: Evidence, a: nat, b: nat)
    requires IsAnchor(rows, newest, ev, a) && IsAnchor(rows, newest, ev, b)
    ensures a == b
  {
  }

  /** What the loop knows after the first `i` aliases. */
  ghost predicate AnchorSoFar(rows: seq<AliasQuarters>, newest: Date, ev: Evidence, i: nat, anchor: Option<nat>) {
    && i <= |rows|
    && (anchor.None? ==> forall j :: 0 <= j < i ==> AnchorRank(rows[j], newest, ev).None?)
    && (anchor.Some? ==> IsAnchor(rows[..i], newest, ev, anchor.value))
  }

  lemma AnchorNext(rows: seq<AliasQuarters>, newest: Date, ev: Evidence, i: nat, anchor: Option<nat>)
    requires i < |rows| && AnchorSoFar(rows, newest, ev, i, anchor)
    ensures var rank := AnchorRank(rows[i], newest, ev);
      var takes := rank.Some? && (anchor.None? || Above(rank.value, AnchorRank(rows[anchor.value], newest, ev).value));
      AnchorSoFar(rows, newest, ev, i + 1, if takes then Some(i) else anchor)
  {
    var longer := rows[..i + 1];
    assert forall j :: 0 <= j < i ==> longer[j] == rows[..i][j];
  }

  /** The anchor loop over the sorted aliases. */
  method FindAnchor(rows: seq<AliasQuarters>, newest: Date, ev: Evidence) returns (anchor: Option<nat>)
    ensures anchor == AnchorOf(rows, newest, ev)
    ensures anchor.None? ==> forall j :: 0 <= j < |rows| ==> AnchorRank(rows[j], newest, ev).None?
  {
    anchor := None;
    var i: nat := 0;
    while i < |rows|
      invariant AnchorSoFar(rows, newest, ev, i, anchor)
    {
      AnchorNext(rows, newest, ev, i, anchor);
      var rank := AnchorRank(rows[i], newest, ev);
      if rank.Some? && (anchor.None? || Above(rank.value, AnchorRank(rows[anchor.value], newest, ev).value)) {
        anchor := Some(i);
      }
      i := i + 1;
    }
    assert rows[..|rows|] == rows;
    if anchor.Some? {
      AnchorIsUnique(rows, newest, ev, anchor.value, AnchorOf(rows, newest, ev).value);
    }
  }

  method FindNewest(rows: seq<AliasQuarters>) returns (newest: Date)
    requires rows != [] && Usable(rows)
    ensures newest == Newest(rows)
  {
    assert rows[..1] == [rows[0]] && rows[..1][..0] == [];
    newest := LastEnd(rows[0]);
    var i := 1;
    while i < |rows|
      invariant 1 <= i <= |rows| && Usable(rows[..i])
      invariant newest == Newest(rows[..i])
    {
      assert rows[..i + 1][..i] == rows[..i];
      newest := Max(newest, LastEnd(rows[i]));
      i := i + 1;
    }
    assert rows[..|rows|] == rows;
  }

  // ---------------------------------------------------------------------
  // The whole selection for one concept
  // ---------------------------------------------------------------------

  /** One concept's request: the facts admitted at the cutoff, the priorities,
      and the SHA-256 identities of observations and of facts. */
  datatype Setup = Setup(
    facts: seq<Fact>,
    concept: nat,
    kind: Kind,
    priority: Priorities,
    identify: Quarter -> nat,
    hash: Fact -> nat)

  datatype Reason = NoEligibleQuarter | NoReadableFiling | IncompleteTail

  datatype Outcome = Absent | Withheld(reason: Reason) | Available(alias: int, window: seq<Quarter>, value: Quarter)

  function CanonicalKey(f: Fact, hash: Fact -> nat): (key: seq<int>)
    ensures |key| == 10
  {
    [f.concept, f.alias, f.end, Begins(f), f.period, f.availableAt, f.revision, f.accession, f.unit, hash(f)]
  }

  function CanonicalOrder(hash: Fact -> nat): (Fact, Fact) -> bool {
    (f, g) => LexLe(CanonicalKey(f, hash), CanonicalKey(g, hash))
  }

  lemma CanonicalOrderIsTotal(hash: Fact -> nat)
    ensures TotalPreorder(CanonicalOrder(hash))
  {
    var le := CanonicalOrder(hash);
    forall f, g
      ensures le(f, g) || le(g, f)
    {
      LexIsTotal(CanonicalKey(f, hash), CanonicalKey(g, hash));
    }
    forall f, g, h | le(f, g) && le(g, h)
      ensures le(f, h)
    {
      LexIsTransitive(CanonicalKey(f, hash), CanonicalKey(g, hash), CanonicalKey(h, hash));
    }
  }

  /** The facts by primary key; a later one replaces an earlier one. */
  function FactMap(facts: seq<Fact>): map<nat, Fact> {
    if facts == [] then map[] else FactMap(facts[..|facts| - 1])[facts[|facts| - 1].pk := facts[|facts| - 1]]
  }

  function AliasOf(f: Fact): int { f.alias }

  predicate Trailing(f: Fact, concept: nat, kind: Kind, priority: Priorities) {
    InScope(f, priority) && f.isDuration && f.concept == concept && kind != Neither
  }

  function Eligible(ordered: seq<Fact>, concept: nat, kind: Kind, priority: Priorities): seq<Fact> {
    if ordered == [] then []
    else
      var rest := Eligible(ordered[..|ordered| - 1], concept, kind, priority);
      var f := ordered[|ordered| - 1];
      if Trailing(f, concept, kind, priority) then rest + [f] else rest
  }

  function Selection(eligible: seq<Fact>, alias: int, priority: Priorities): seq<Fact> {
    LatestVintages(Filter(eligible, AliasOf, alias), priority)
  }

  function Series(eligible: seq<Fact>, alias: int, concept: nat, kind: Kind, ev: Evidence): seq<Quarter> {
    OnePerEnd(AllCandidates(Selection(eligible, alias, ev.priority), concept, kind), ev)
  }

  function RowOf(alias: int, values: seq<Quarter>): seq<AliasQuarters> {
    if values == [] then [] else [AliasQuarters(alias, values)]
  }

  /** The aliases that yield a quarter, in the given order. */
  function RowsFor(eligible: seq<Fact>, aliases: seq<int>, concept: nat, kind: Kind,
                   ev: Evidence): (rows: seq<AliasQuarters>)
    ensures Usable(rows)
  {
    if aliases == [] then []
    else
      RowsFor(eligible, aliases[..|aliases| - 1], concept, kind, ev)
      + RowOf(aliases[|aliases| - 1], Series(eligible, aliases[|aliases| - 1], concept, kind, ev))
  }

  function Rows(ordered: seq<Fact>, concept: nat, kind: Kind, ev: Evidence): (rows: seq<AliasQuarters>)
    ensures Usable(rows)
  {
    var eligible := Eligible(ordered, concept, kind, ev.priority);
    RowsFor(eligible, SortedSet(Grouped(eligible, AliasOf).Keys), concept, kind, ev)
  }

  lemma TailHasDays(values: seq<Quarter>, through: Date)
    requires HomogeneousTail(values, through).Some?
    ensures var window := HomogeneousTail(values, through).value;
      && TotalDays(window) == Span(window)
      && MIN_ANNUAL_DAYS <= Span(window) <= MAX_ANNUAL_DAYS
  {
    DaysAddUp(HomogeneousTail(values, through).value);
  }

  ghost function Decide(rows: seq<AliasQuarters>, kind: Kind, ev: Evidence): Outcome
    requires Usable(rows)
  {
    if rows == [] then Withheld(NoEligibleQuarter)
    else
      var newest := Newest(rows);
      match AnchorOf(rows, newest, ev)
      case None => Withheld(NoReadableFiling)
      case Some(a) =>
        match HomogeneousTail(rows[a].values, newest)
        case None => Withheld(IncompleteTail)
        case Some(window) =>
          TailHasDays(rows[a].values, newest);
          Available(rows[a].alias, window, TtmValue(kind, window))
  }

  ghost function OutcomeOf(ordered: seq<Fact>, concept: nat, kind: Kind, ev: Evidence): Outcome {
    if Eligible(ordered, concept, kind, ev.priority) == [] then Absent
    else Decide(Rows(ordered, concept, kind, ev), kind, ev)
  }

  function EvidenceOf(setup: Setup): Evidence {
    Evidence(FactMap(setup.facts), setup.priority, setup.identify)
  }

  function InCanonicalOrder(setup: Setup): seq<Fact> {
    Sort(setup.facts, CanonicalOrder(setup.hash))
  }

  ghost function TtmOutcome(setup: Setup): Outcome {
    OutcomeOf(InCanonicalOrder(setup), setup.concept, setup.kind, EvidenceOf(setup))
  }

  method EligibleFacts(ordered: seq<Fact>, concept: nat, kind: Kind, priority: Priorities) returns (eligible: seq<Fact>)
    ensures eligible == Eligible(ordered, concept, kind, priority)
  {
    eligible := [];
    var i := 0;
    while i < |ordered|
      invariant 0 <= i <= |ordered|
      invariant eligible == Eligible(ordered[..i], concept, kind, priority)
    {
      assert ordered[..i + 1][..i] == ordered[..i];
      if Trailing(ordered[i], concept, kind, priority) {
        eligible := eligible + [ordered[i]];
      }
      i := i + 1;
    }
    assert ordered[..|ordered|] == ordered;
  }

  lemma NextRow(eligible: seq<Fact>, aliases: seq<int>, i: nat, concept: nat, kind: Kind, ev: Evidence)
    requires i < |aliases|
    ensures RowsFor(eligible, aliases[..i + 1], concept, kind, ev) ==
      RowsFor(eligible, aliases[..i], concept, kind, ev)
      + RowOf(aliases[i], Series(eligible, aliases[i], concept, kind, ev))
  {
    assert aliases[..i + 1][..i] == aliases[..i];
  }

  lemma AliasGroup(eligible: seq<Fact>, byAlias: map<int, seq<Fact>>, aliases: seq<int>, i: nat)
    requires byAlias == Grouped(eligible, AliasOf) && aliases == SortedSet(byAlias.Keys) && i < |aliases|
    ensures aliases[i] in byAlias && byAlias[aliases[i]] == Filter(eligible, AliasOf, aliases[i])
  {
    assert aliases[i] in aliases;
  }

  method SeriesOfAlias(aliasFacts: seq<Fact>, ghost eligible: seq<Fact>, alias: int, concept: nat, kind: Kind,
                       ev: Evidence)
    returns (values: seq<Quarter>)
    requires aliasFacts == Filter(eligible, AliasOf, alias)
    ensures values == Series(eligible, alias, concept, kind, ev)
  {
    var selected := SelectLatestFactVintages(aliasFacts, ev.priority);
    values := AliasQuarterSeries(selected, concept, kind, ev);
  }

  /** The alias loop: one series per alias, in alphabetical order. */
  method AliasRow(aliasFacts: seq<Fact>, ghost eligible: seq<Fact>, alias: int, concept: nat, kind: Kind, ev: Evidence)
    returns (row: seq<AliasQuarters>)
    requires aliasFacts == Filter(eligible, AliasOf, alias)
    ensures row == RowOf(alias, Series(eligible, alias, concept, kind, ev))
  {
    var values := SeriesOfAlias(aliasFacts, eligible, alias, concept, kind, ev);
    row := RowOf(alias, values);
  }

  method AliasRows(eligible: seq<Fact>, concept: nat, kind: Kind, ev: Evidence) returns (rows: seq<AliasQuarters>)
    ensures rows == RowsFor(eligible, SortedSet(Grouped(eligible, AliasOf).Keys), concept, kind, ev)
  {
    var keys, byAlias := GroupBy(eligible, AliasOf);
    rows := RowsByAlias(eligible, byAlias, SortedSet(byAlias.Keys), concept, kind, ev);
  }

  method RowsByAlias(ghost eligible: seq<Fact>, byAlias: map<int, seq<Fact>>, aliases: seq<int>, concept: nat,
                     kind: Kind, ev: Evidence)
    returns (rows: seq<AliasQuarters>)
    requires byAlias == Grouped(eligible, AliasOf) && aliases == SortedSet(byAlias.Keys)
    ensures rows == RowsFor(eligible, aliases, concept, kind, ev)
  {
    rows := [];
    var i: nat := 0;
    while i < |aliases|
      invariant i <= |aliases|
      invariant rows == RowsFor(eligible, aliases[..i], concept, kind, ev)
    {
      AliasGroup(eligible, byAlias, aliases, i);
      var row := AliasRow(byAlias[aliases[i]], eligible, aliases[i], concept, kind, ev);
      NextRow(eligible, aliases, i, concept, kind, ev);
      rows := rows + row;
      i := i + 1;
    }
    assert aliases[..|aliases|] == aliases;
  }

  /** `_newest_quarter_anchored_ttm_series`, for one concept. */
  method AnchoredTtm(setup: Setup) returns (outcome: Outcome)
    ensures outcome == TtmOutcome(setup)
  {
    var ev := EvidenceOf(setup);
    var ordered := Sort(setup.facts, CanonicalOrder(setup.hash));
    var eligible := EligibleFacts(ordered, setup.concept, setup.kind, setup.priority);
    if eligible == [] {
      return Absent;
    }
    var rows := AliasRows(eligible, setup.concept, setup.kind, ev);
    if rows == [] {
      return Withheld(NoEligibleQuarter);
    }
    outcome := AnchorAndTail(rows, setup.kind, ev);
  }

  method AnchorAndTail(rows: seq<AliasQuarters>, kind: Kind, ev: Evidence) returns (outcome: Outcome)
    requires rows != [] && Usable(rows)
    ensures outcome == Decide(rows, kind, ev)
  {
    var newest := FindNewest(rows);
    var anchor := FindAnchor(rows, newest, ev);
    if anchor.None? {
      return Withheld(NoReadableFiling);
    }
    var tail := HomogeneousTail(rows[anchor.value].values, newest);
    if tail.None? {
      return Withheld(IncompleteTail);
    }
    TailHasDays(rows[anchor.value].values, newest);
    return Available(rows[anchor.value].alias, tail.value, TtmValue(kind, tail.value));
  }

  // ---------------------------------------------------------------------
  // What an available value is
  // ---------------------------------------------------------------------

  lemma {:induction false} EligibleMembers(ordered: seq<Fact>, concept: nat, kind: Kind, priority: Priorities)
    ensures forall f :: f in Eligible(ordered, concept, kind, priority) ==>
      f in ordered && Trailing(f, concept, kind, priority)
  {
    if ordered != [] {
      EligibleMembers(ordered[..|ordered| - 1], concept, kind, priority);
    }
  }

  lemma {:induction false} RowIsSeries(eligible: seq<Fact>, aliases: seq<int>, concept: nat, kind: Kind, ev: Evidence,
                                       row: AliasQuarters)
    requires row in RowsFor(eligible, aliases, concept, kind, ev)
    ensures row.values == Series(eligible, row.alias, concept, kind, ev) != []
  {
    var front := aliases[..|aliases| - 1];
    if row in RowsFor(eligible, front, concept, kind, ev) {
      RowIsSeries(eligible, front, concept, kind, ev, row);
    }
  }

  /** Each quarter of an alias's series has quarter length, names only that
      alias, and cites facts of the request. */
  lemma SeriesQuarter(eligible: seq<Fact>, alias: int, concept: nat, kind: Kind, ev: Evidence, q: Quarter)
    requires q in Series(eligible, alias, concept, kind, ev)
    ensures Cites(q, eligible, alias)
  {
    var selected := Selection(eligible, alias, ev.priority);
    var own := Filter(eligible, AliasOf, alias);
    OnePerEndIsRight(AllCandidates(selected, concept, kind), ev);
    FilterMembers(eligible, AliasOf, alias);
    forall f | f in selected
      ensures f in eligible && f.alias == alias
    {
      VintagesAreFacts(own, ev.priority, f);
    }
    CandidateCites(selected, concept, kind, alias, q);
    forall i | 0 <= i < |q.sources|
      ensures exists k :: 0 <= k < |eligible| && eligible[k].pk == q.sources[i]
    {
      var k :| 0 <= k < |selected| && selected[k].pk == q.sources[i];
      assert selected[k] in selected;
    }
  }

  lemma SeriesAscends(eligible: seq<Fact>, alias: int, concept: nat, kind: Kind, ev: Evidence)
    ensures QuartersAscend(Series(eligible, alias, concept, kind, ev))
  {
    OnePerEndIsRight(AllCandidates(Selection(eligible, alias, ev.priority), concept, kind), ev);
  }

  lemma {:induction false} ThroughMembers(values: seq<Quarter>, through: Date)
    ensures forall q :: q in Through(values, through) <==> q in values && q.end <= through
  {
    if values != [] {
      ThroughMembers(values[..|values| - 1], through);
      assert values == values[..|values| - 1] + [values[|values| - 1]];
    }
  }

  lemma TailMembers(values: seq<Quarter>, through: Date)
    requires HomogeneousTail(values, through).Some?
    ensures forall q :: q in HomogeneousTail(values, through).value ==> q in values
  {
    ThroughMembers(values, through);
  }

  /** No alias has a quarter ending after the newest end. */
  lemma NothingNewer(rows: seq<AliasQuarters>, eligible: seq<Fact>, aliases: seq<int>, concept: nat, kind: Kind,
                     ev: Evidence)
    requires rows == RowsFor(eligible, aliases, concept, kind, ev) && rows != []
    ensures forall row, q :: row in rows && q in row.values ==> q.end <= Newest(rows)
  {
    NewestIsLast(rows);
    forall row, q | row in rows && q in row.values
      ensures q.end <= Newest(rows)
    {
      RowIsSeries(eligible, aliases, concept, kind, ev, row);
      SeriesAscends(eligible, row.alias, concept, kind, ev);
      LastIsLatest(row, q);
      var j :| 0 <= j < |rows| && rows[j] == row;
    }
  }

  lemma LastIsLatest(row: AliasQuarters, q: Quarter)
    requires QuartersAscend(row.values) && q in row.values
    ensures q.end <= LastEnd(row)
  {
    var i :| 0 <= i < |row.values| && row.values[i] == q;
  }

  /** Four contiguous quarters of one alias and one unit. */
  ghost predicate Homogeneous(window: seq<Quarter>, alias: int) {
    && |window| == 4 && Contiguous(window)
    && (forall q :: q in window ==> q.unit == window[0].unit && q.aliases == [alias] && QuarterLength(q.Days()))
  }

  /** The arithmetic: a sum, or an average between the smallest and the largest. */
  ghost predicate Amounts(kind: Kind, window: seq<Quarter>, value: real)
    requires |window| == 4
  {
    && (kind == Additive ==> value == window[0].value + window[1].value + window[2].value + window[3].value)
    && (kind == Weighted ==> forall low: real, high: real :: Between(window, low, high) ==> low <= value <= high)
  }

  lemma TotalOfFour(window: seq<Quarter>)
    requires |window| == 4
    ensures Total(window) == window[0].value + window[1].value + window[2].value + window[3].value
  {
    assert window[..3][..2] == window[..2] && window[..2][..1] == window[..1] && window[..1][..0] == [];
    assert Total(window[..1]) == window[0].value;
    assert Total(window[..2]) == window[0].value + window[1].value;
    assert Total(window[..3]) == window[0].value + window[1].value + window[2].value;
  }

  lemma TtmAmounts(kind: Kind, window: seq<Quarter>)
    requires |window| == 4 && TotalDays(window) != 0
    requires forall q :: q in window ==> QuarterLength(q.Days())
    ensures Amounts(kind, window, TtmValue(kind, window).value)
  {
    TotalOfFour(window);
    if kind == Weighted {
      forall low: real, high: real | Between(window, low, high)
        ensures low <= TtmAmount(kind, window) <= high
      {
        WeightedAverageIsBetween(kind, window, low, high);
      }
    }
  }

  /** Any trailing value ends at the newest quarter end over all aliases, and is
      built from four contiguous quarters of one alias whose days add up to a
      span of 350 to 380; that alias's controlling filing ranks highest there. */
  lemma AvailableIsAnchored(setup: Setup)
    requires TtmOutcome(setup).Available?
    ensures var o := TtmOutcome(setup);
      var ev := EvidenceOf(setup);
      var rows := Rows(InCanonicalOrder(setup), setup.concept, setup.kind, ev);
      && Homogeneous(o.window, o.alias)
      && o.value.start == o.window[0].start && o.value.end == o.window[3].end
      && TotalDays(o.window) == o.value.end - o.value.start + 1
      && MIN_ANNUAL_DAYS <= TotalDays(o.window) <= MAX_ANNUAL_DAYS
      && Amounts(setup.kind, o.window, o.value.value)
      && (forall row, q :: row in rows && q in row.values ==> q.end <= o.value.end)
      && exists a: nat :: IsAnchor(rows, o.value.end, ev, a) && rows[a].alias == o.alias
           && forall q :: q in o.window ==> q in rows[a].values
  {
    var o := TtmOutcome(setup);
    var ev := EvidenceOf(setup);
    var eligible := Eligible(InCanonicalOrder(setup), setup.concept, setup.kind, setup.priority);
    var aliases := SortedSet(Grouped(eligible, AliasOf).Keys);
    var rows := RowsFor(eligible, aliases, setup.concept, setup.kind, ev);
    DecidedTail(rows, setup.kind, ev);
    NothingNewer(rows, eligible, aliases, setup.concept, setup.kind, ev);
    var a: nat :| IsAnchor(rows, o.value.end, ev, a) && rows[a].alias == o.alias
      && forall q :: q in o.window ==> q in rows[a].values;
    assert rows[a] in rows;
    RowIsSeries(eligible, aliases, setup.concept, setup.kind, ev, rows[a]);
    forall q | q in o.window
      ensures q.aliases == [o.alias] && QuarterLength(q.Days())
    {
      SeriesQuarter(eligible, o.alias, setup.concept, setup.kind, ev, q);
    }
    TtmAmounts(setup.kind, o.window);
  }

  lemma DecidedTail(rows: seq<AliasQuarters>, kind: Kind, ev: Evidence)
    requires Usable(rows) && Decide(rows, kind, ev).Available?
    ensures rows != []
    ensures var o := Decide(rows, kind, ev);
      && |o.window| == 4 && Contiguous(o.window)
      && (forall q :: q in o.window ==> q.unit == o.window[0].unit)
      && MIN_ANNUAL_DAYS <= TotalDays(o.window) == Span(o.window) <= MAX_ANNUAL_DAYS
      && o.value == TtmValue(kind, o.window)
      && o.value.end == Newest(rows)
      && exists a: nat :: IsAnchor(rows, o.value.end, ev, a) && rows[a].alias == o.alias
           && forall q :: q in o.window ==> q in rows[a].values
  {
    var newest := Newest(rows);
    var a := AnchorOf(rows, newest, ev).value;
    TailHasDays(rows[a].values, newest);
    TailMembers(rows[a].values, newest);
    assert IsAnchor(rows, newest, ev, a);
  }

  // ---------------------------------------------------------------------
  // Every anchor is readable
  // ---------------------------------------------------------------------

  lemma {:induction false} FactMapFinds(facts: seq<Fact>, i: nat)
    requires i < |facts|
    ensures facts[i].pk in FactMap(facts)
  {
    if i < |facts| - 1 {
      FactMapFinds(facts[..|facts| - 1], i);
    }
  }

  lemma {:induction false} ReadableFinds(sources: seq<nat>, facts: map<nat, Fact>, i: nat)
    requires i < |sources| && sources[i] in facts
    ensures Readable(sources, facts) != []
  {
    if i < |sources| - 1 {
      ReadableFinds(sources[..|sources| - 1], facts, i);
    }
  }

  lemma QuarterIsReadable(setup: Setup, alias: int, q: Quarter)
    requires var eligible := Eligible(InCanonicalOrder(setup), setup.concept, setup.kind, setup.priority);
      q in Series(eligible, alias, setup.concept, setup.kind, EvidenceOf(setup))
    ensures Controlling(q, EvidenceOf(setup)).Some?
  {
    var eligible := Eligible(InCanonicalOrder(setup), setup.concept, setup.kind, setup.priority);
    SeriesQuarter(eligible, alias, setup.concept, setup.kind, EvidenceOf(setup), q);
    var k :| 0 <= k < |eligible| && eligible[k].pk == q.sources[0];
    EligibleMembers(InCanonicalOrder(setup), setup.concept, setup.kind, setup.priority);
    assert eligible[k] in eligible;
    SortKeepsElements(setup.facts, CanonicalOrder(setup.hash));
    SameMembers(InCanonicalOrder(setup), setup.facts);
    var i :| 0 <= i < |setup.facts| && setup.facts[i] == eligible[k];
    FactMapFinds(setup.facts, i);
    ReadableFinds(q.sources, FactMap(setup.facts), 0);
  }

  lemma {:induction false} AnchorReached(rows: seq<AliasQuarters>, newest: Date, ev: Evidence, i: nat)
    returns (anchor: Option<nat>)
    requires i <= |rows|
    ensures AnchorSoFar(rows, newest, ev, i, anchor)
  {
    if i == 0 {
      anchor := None;
    } else {
      anchor := AnchorReached(rows, newest, ev, i - 1);
      AnchorNext(rows, newest, ev, i - 1, anchor);
      var rank := AnchorRank(rows[i - 1], newest, ev);
      if rank.Some? && (anchor.None? || Above(rank.value, AnchorRank(rows[anchor.value], newest, ev).value)) {
        anchor := Some(i - 1);
      }
    }
  }

  lemma AnchorExists(rows: seq<AliasQuarters>, newest: Date, ev: Evidence, j: nat)
    requires j < |rows| && AnchorRank(rows[j], newest, ev).Some?
    ensures AnchorOf(rows, newest, ev).Some?
  {
    var anchor := AnchorReached(rows, newest, ev, |rows|);
    assert rows[..|rows|] == rows;
    assert IsAnchor(rows, newest, ev, anchor.value);
  }

  lemma SomeRowAnchors(setup: Setup, aliases: seq<int>, rows: seq<AliasQuarters>)
    requires var eligible := Eligible(InCanonicalOrder(setup), setup.concept, setup.kind, setup.priority);
      rows == RowsFor(eligible, aliases, setup.concept, setup.kind, EvidenceOf(setup))
    requires rows != []
    ensures AnchorOf(rows, Newest(rows), EvidenceOf(setup)).Some?
  {
    var eligible := Eligible(InCanonicalOrder(setup), setup.concept, setup.kind, setup.priority);
    NewestIsLast(rows);
    var j :| 0 <= j < |rows| && LastEnd(rows[j]) == Newest(rows);
    RowIsSeries(eligible, aliases, setup.concept, setup.kind, EvidenceOf(setup), rows[j]);
    NewestRowRanks(setup, rows[j], Newest(rows));
    AnchorExists(rows, Newest(rows), EvidenceOf(setup), j);
  }

  /** A concept with any quarter always finds an anchor: the newest observation
      cites a fact of the request, so its controlling filing can be read. */
  lemma AnchorIsAlwaysReadable(setup: Setup)
    ensures TtmOutcome(setup) != Withheld(NoReadableFiling)
  {
    var ev := EvidenceOf(setup);
    var eligible := Eligible(InCanonicalOrder(setup), setup.concept, setup.kind, setup.priority);
    var aliases := SortedSet(Grouped(eligible, AliasOf).Keys);
    var rows := RowsFor(eligible, aliases, setup.concept, setup.kind, ev);
    if rows != [] {
      SomeRowAnchors(setup, aliases, rows);
      AnchoredDecision(rows, setup.kind, ev);
    }
  }

  lemma AnchoredDecision(rows: seq<AliasQuarters>, kind: Kind, ev: Evidence)
    requires Usable(rows) && rows != [] && AnchorOf(rows, Newest(rows), ev).Some?
    ensures Decide(rows, kind, ev) != Withheld(NoReadableFiling)
  {
  }

  lemma NewestRowRanks(setup: Setup, row: AliasQuarters, newest: Date)
    requires row.values != [] && LastEnd(row) == newest
    requires var eligible := Eligible(InCanonicalOrder(setup), setup.concept, setup.kind, setup.priority);
      row.values == Series(eligible, row.alias, setup.concept, setup.kind, EvidenceOf(setup))
    ensures AnchorRank(row, newest, EvidenceOf(setup)).Some?
  {
    assert row.values[|row.values| - 1] in row.values;
    QuarterIsReadable(setup, row.alias, LastAt(row.values, newest).value);
  }

  // ---------------------------------------------------------------------
  // Input order
  // ---------------------------------------------------------------------

  ghost predicate UniquePks(facts: seq<Fact>) {
    forall f, g :: f in facts && g in facts && f.pk == g.pk ==> f == g
  }

  lemma {:induction false} FactMapIs(facts: seq<Fact>)
    requires UniquePks(facts)
    ensures forall id :: id in FactMap(facts) <==> exists f :: f in facts && f.pk == id
    ensures forall id :: id in FactMap(facts) ==> FactMap(facts)[id] in facts && FactMap(facts)[id].pk == id
  {
    if facts != [] {
      var front := facts[..|facts| - 1];
      var last := facts[|facts| - 1];
      assert facts == front + [last];
      FactMapIs(front);
      forall id
        ensures id in FactMap(facts) <==> exists f :: f in facts && f.pk == id
      {
        if f :| f in facts && f.pk == id {
          assert f in front || f == last;
        }
        if id in FactMap(front) {
          assert FactMap(front)[id] in facts;
        }
      }
    }
  }

  lemma FactMapIgnoresOrder(a: seq<Fact>, b: seq<Fact>)
    requires UniquePks(a) && SameFacts(a, b)
    ensures FactMap(a) == FactMap(b)
  {
    FactMapIs(a);
    FactMapIs(b);
    forall id
      ensures id in FactMap(a) <==> id in FactMap(b)
      ensures id in FactMap(a) ==> FactMap(a)[id] == FactMap(b)[id]
    {
      if id in FactMap(a) {
        assert FactMap(a)[id] in b;
      }
      if id in FactMap(b) {
        assert FactMap(b)[id] in a;
      }
    }
  }

  /** The outcome is the same for every order of the facts, when canonical sort
      keys are distinct and primary keys are unique. */
  lemma OutcomeIgnoresInputOrder(setup: Setup, other: Setup)
    requires other == setup.(facts := other.facts) && multiset(setup.facts) == multiset(other.facts)
    requires UniquePks(setup.facts) && DistinctKeys(setup.facts, CanonicalOrder(setup.hash))
    ensures TtmOutcome(setup) == TtmOutcome(other)
  {
    CanonicalOrderIsTotal(setup.hash);
    SortIgnoresInputOrder(setup.facts, other.facts, CanonicalOrder(setup.hash));
    SameMembers(setup.facts, other.facts);
    FactMapIgnoresOrder(setup.facts, other.facts);
  }
}
