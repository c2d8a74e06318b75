/** A fiscal year that one alias files as four year-to-date facts, through the
    whole trailing-twelve-month selection (sec_fundamentals.py). */
module AnchoredYear {
  import opened Wrappers
  import opened Sorting
  import opened IntegerSets
  import opened Grouping
  import opened VintageSelection
  import opened QuarterSeries
  import opened QuarterCandidates
  import opened AnchoredTtm

  // ---------------------------------------------------------------------
  // A year reported year-to-date
  // ---------------------------------------------------------------------

  ghost predicate EndsAscend(chain: seq<Fact>) {
    forall i, j :: 0 <= i < j < |chain| ==> chain[i].end < chain[j].end
  }

  lemma {:induction false} AllMeasurable(chain: seq<Fact>, concept: nat)
    requires forall f :: f in chain ==> Measurable(f, concept)
    ensures Durations(chain, concept) == chain
  {
    if chain != [] {
      var front := chain[..|chain| - 1];
      assert chain == front + [chain[|chain| - 1]];
      assert chain[|chain| - 1] in chain;
      AllMeasurable(front, concept);
    }
  }

  /** One alias's year-to-date filing of a year: a first quarter and its steps. */
  ghost predicate YearToDate(kind: Kind, chain: seq<Fact>, concept: nat) {
    && kind != Neither && YtdChain(kind, chain)
    && (forall f :: f in chain ==> Measurable(f, concept) && LaneOf(f) == LaneOf(chain[0]))
    && QuarterLength(FactDays(chain[0]))
  }

  lemma {:induction false} YearToDateAscends(kind: Kind, chain: seq<Fact>, concept: nat)
    requires YearToDate(kind, chain, concept)
    ensures EndsAscend(chain)
  {
    if |chain| > 1 {
      var front := chain[..|chain| - 1];
      ChainFront(kind, chain);
      assert forall f :: f in front ==> f in chain;
      YearToDateAscends(kind, front, concept);
      assert chain[|chain| - 2].end < chain[|chain| - 1].end;
      forall i, j | 0 <= i < j < |chain|
        ensures chain[i].end < chain[j].end
      {
        if j < |chain| - 1 {
          assert front[i].end < front[j].end;
        } else if i < |chain| - 2 {
          assert front[i].end < front[|chain| - 2].end;
        }
      }
    }
  }

  lemma YearToDateFront(kind: Kind, chain: seq<Fact>, concept: nat)
    requires YearToDate(kind, chain, concept) && |chain| > 1
    ensures YearToDate(kind, chain[..|chain| - 1], concept)
  {
    ChainFront(kind, chain);
    assert forall f :: f in chain[..|chain| - 1] ==> f in chain;
  }

  /** Only the first fact is itself a quarter. */
  lemma {:induction false} YearToDateDirects(kind: Kind, chain: seq<Fact>, concept: nat)
    requires YearToDate(kind, chain, concept)
    ensures Directs(chain) == [Reported(chain[0])]
  {
    if |chain| == 1 {
      assert Directs(chain[..0]) == [];
    } else {
      YearToDateFront(kind, chain, concept);
      YearToDateDirects(kind, chain[..|chain| - 1], concept);
      LaterFactsAreLong(kind, chain, concept);
      assert chain[|chain| - 1] in chain;
    }
  }

  /** The rest are differenced. */
  lemma {:induction false} YearToDateCandidates(kind: Kind, chain: seq<Fact>)
    requires YtdChain(kind, chain)
    ensures [Reported(chain[0])] + ChainDifferences(DiffOf(kind), chain) == Unrolled(kind, chain)
  {
    if |chain| > 1 {
      ChainFront(kind, chain);
      YearToDateCandidates(kind, chain[..|chain| - 1]);
    }
  }

  lemma LaterFactsAreLong(kind: Kind, chain: seq<Fact>, concept: nat)
    requires YearToDate(kind, chain, concept) && |chain| > 1
    ensures FactDays(chain[|chain| - 1]) >= 140
  {
    YearToDateAscends(kind, chain, concept);
    ChainFront(kind, chain);
    assert chain[|chain| - 1] in chain && chain[|chain| - 1].start == chain[0].start;
    assert chain[|chain| - 2].end >= chain[0].end;
    assert chain[|chain| - 1].end - chain[|chain| - 2].end >= 70;
  }

  lemma YearToDateIsUnrolled(kind: Kind, chain: seq<Fact>, concept: nat)
    requires YearToDate(kind, chain, concept)
    ensures AllCandidates(chain, concept, kind) == Unrolled(kind, chain)
  {
    AllMeasurable(chain, concept);
    OneGroup(chain, LaneOf, LaneOf(chain[0]));
    assert forall f :: f in chain ==> Begins(f) == Begins(chain[0]);
    OneGroup(chain, Begins, Begins(chain[0]));
    YearToDateAscends(kind, chain, concept);
    SortOfOrdered(chain, ByEnd);
    YearToDateDirects(kind, chain, concept);
    YearToDateCandidates(kind, chain);
    OneLane(DiffOf(kind), chain, LaneOf(chain[0]), Begins(chain[0]));
  }

  lemma OneLane(diff: (Fact, Fact) -> Option<Quarter>, chain: seq<Fact>, lane: (nat, nat), start: Date)
    requires chain != [] && Filter(chain, LaneOf, lane) == chain && Filter(chain, Begins, start) == chain
    requires Keys(chain, LaneOf) == [lane] && Keys(chain, Begins) == [start] && Sort(chain, ByEnd) == chain
    ensures Differences(diff, chain, Keys(chain, LaneOf)) == ChainDifferences(diff, chain)
  {
    assert [start][..0] == [] && [lane][..0] == [];
    assert LaneDifferences(diff, chain, [start]) == ChainDifferences(diff, chain);
  }

  predicate ByQuarterEnd(p: Quarter, q: Quarter) {
    p.end <= q.end
  }

  lemma SameQuarters(a: seq<Quarter>, b: seq<Quarter>)
    requires QuartersAscend(a) && QuartersAscend(b)
    requires forall q :: q in a <==> q in b
    ensures a == b
  {
    EndsIdentify(a);
    SameMembersSameMultiset(a, b);
    OrderedPermutationIsUnique(a, b, ByQuarterEnd);
  }

  lemma EndsIdentify(values: seq<Quarter>)
    requires QuartersAscend(values)
    ensures forall p, q :: p in values && q in values && p.end == q.end ==> p == q
  {
  }

  /** Candidates with distinct, ascending ends are already the series. */
  lemma AscendingIsSeries(candidates: seq<Quarter>, ev: Evidence)
    requires QuartersAscend(candidates)
    ensures OnePerEnd(candidates, ev) == candidates
  {
    var values := OnePerEnd(candidates, ev);
    OnePerEndIsRight(candidates, ev);
    CoveringIsAll(candidates, values, ev);
    SameQuarters(candidates, values);
  }

  lemma CoveringIsAll(candidates: seq<Quarter>, values: seq<Quarter>, ev: Evidence)
    requires QuartersAscend(candidates) && OnePerEndHolds(candidates, values, ev)
    ensures forall q :: q in candidates <==> q in values
  {
    EndsIdentify(candidates);
    forall c | c in candidates
      ensures c in values
    {
      var q :| q in values && q.end == c.end && !Outranks(c, q, ev);
    }
  }

  lemma DifferenceLane(kind: Kind, f: Fact, g: Fact)
    requires LaneOf(f) == LaneOf(g) && Difference(kind, f, g).Some?
    ensures var q := Difference(kind, f, g).value;
      q.unit == g.unit && q.aliases == [g.alias] && q.end == g.end
  {
  }

  ghost predicate InLane(window: seq<Quarter>, chain: seq<Fact>)
    requires |window| == |chain| > 0
  {
    && (forall i :: 0 <= i < |window| ==> window[i].end == chain[i].end)
    && (forall i :: 0 <= i < |window| ==> window[i].unit == chain[0].unit && window[i].aliases == [chain[0].alias])
  }

  lemma {:induction false} UnrolledInLane(kind: Kind, chain: seq<Fact>)
    requires YtdChain(kind, chain) && forall i :: 0 <= i < |chain| ==> LaneOf(chain[i]) == LaneOf(chain[0])
    ensures InLane(Unrolled(kind, chain), chain)
  {
    if |chain| > 1 {
      var front := chain[..|chain| - 1];
      ChainFront(kind, chain);
      UnrolledInLane(kind, front);
      DifferenceLane(kind, chain[|chain| - 2], chain[|chain| - 1]);
    }
  }

  lemma {:induction false} AllThrough(values: seq<Quarter>, through: Date)
    requires forall q :: q in values ==> q.end <= through
    ensures Through(values, through) == values
  {
    if values != [] {
      var front := values[..|values| - 1];
      assert values == front + [values[|values| - 1]];
      assert values[|values| - 1] in values;
      AllThrough(front, through);
    }
  }

  /** An alias that files a year as four year-to-date facts, a quarter apart:
      its series is the reported first quarter and the three differences, they
      are its tail, and the trailing value is the full-year value as filed. */
  lemma YearToDateFactsGiveTheirYear(kind: Kind, chain: seq<Fact>, concept: nat, ev: Evidence)
    requires YearToDate(kind, chain, concept) && |chain| == 4
    requires MIN_ANNUAL_DAYS <= FactDays(chain[3]) <= MAX_ANNUAL_DAYS
    ensures var series := OnePerEnd(AllCandidates(chain, concept, kind), ev);
      && HomogeneousTail(series, chain[3].end) == Some(series)
      && TotalDays(series) == FactDays(chain[3])
      && TtmValue(kind, series).value == chain[3].value
      && TtmValue(kind, series).start == Begins(chain[3]) && TtmValue(kind, series).end == chain[3].end
  {
    var window := Unrolled(kind, chain);
    YearToDateIsUnrolled(kind, chain, concept);
    forall i | 0 <= i < |chain|
      ensures LaneOf(chain[i]) == LaneOf(chain[0])
    {
      assert chain[i] in chain;
    }
    UnrolledInLane(kind, chain);
    YearToDateAscends(kind, chain, concept);
    AscendingIsSeries(window, ev);
    TtmOfYearToDateIsReported(kind, chain);
    WholeSeriesIsTail(window, chain);
  }

  lemma WholeSeriesIsTail(window: seq<Quarter>, chain: seq<Fact>)
    requires |window| == |chain| == 4 && InLane(window, chain) && EndsAscend(chain)
    requires Contiguous(window) && MIN_ANNUAL_DAYS <= Span(window) <= MAX_ANNUAL_DAYS
    ensures HomogeneousTail(window, chain[3].end) == Some(window)
  {
    forall q | q in window
      ensures q.end <= chain[3].end
    {
      var i :| 0 <= i < |window| && window[i] == q;
      assert i < 3 ==> chain[i].end < chain[3].end;
    }
    AllThrough(window, chain[3].end);
    assert window[0..] == window;
    assert Compatible(window);
  }

  // ---------------------------------------------------------------------
  // The whole request
  // ---------------------------------------------------------------------

  /** The request's facts that the selection looks at are these, in any order
      and each once; distinct facts of theirs are distinct periods. */
  ghost predicate OnlyYear(setup: Setup, chain: seq<Fact>) {
    && Distinct(setup.facts)
    && (forall f :: f in chain <==> f in setup.facts && Trailing(f, setup.concept, setup.kind, setup.priority))
    && (forall f, g :: f in chain && g in chain && f.period == g.period ==> f == g)
  }

  lemma {:induction false} EligibleKeepsOrder(s: seq<Fact>, concept: nat, kind: Kind, priority: Priorities, i: nat,
      j: nat)
    requires i < j < |Eligible(s, concept, kind, priority)|
    ensures exists a, b :: 0 <= a < b < |s| && s[a] == Eligible(s, concept, kind, priority)[i]
                           && s[b] == Eligible(s, concept, kind, priority)[j]
  {
    var n := |s| - 1;
    var rest := Eligible(s[..n], concept, kind, priority);
    if j < |rest| {
      EligibleKeepsOrder(s[..n], concept, kind, priority, i, j);
      var a, b :| 0 <= a < b < n && s[..n][a] == rest[i] && s[..n][b] == rest[j];
      assert s[a] == rest[i] && s[b] == rest[j];
    } else {
      EligibleMembers(s[..n], concept, kind, priority);
      assert rest[i] in s[..n];
      var a :| 0 <= a < n && s[..n][a] == rest[i];
      assert s[a] == rest[i] && s[n] == Eligible(s, concept, kind, priority)[j];
    }
  }

  lemma {:induction false} EligibleHasAll(s: seq<Fact>, concept: nat, kind: Kind, priority: Priorities, f: Fact)
    requires f in s && Trailing(f, concept, kind, priority)
    ensures f in Eligible(s, concept, kind, priority)
  {
    if f != s[|s| - 1] {
      assert s == s[..|s| - 1] + [s[|s| - 1]];
      EligibleHasAll(s[..|s| - 1], concept, kind, priority, f);
    }
  }

  lemma EligibleInOrder(s: seq<Fact>, concept: nat, kind: Kind, priority: Priorities, le: (Fact, Fact) -> bool)
    requires Ordered(s, le) && Distinct(s)
    ensures Ordered(Eligible(s, concept, kind, priority), le) && Distinct(Eligible(s, concept, kind, priority))
  {
    var kept := Eligible(s, concept, kind, priority);
    forall i, j | 0 <= i < j < |kept| ensures le(kept[i], kept[j]) && kept[i] != kept[j] {
      EligibleKeepsOrder(s, concept, kind, priority, i, j);
    }
  }

  lemma EndsDecide(f: Fact, g: Fact, hash: Fact -> nat)
    requires f.concept == g.concept && f.alias == g.alias && f.end < g.end
    ensures LexLe(CanonicalKey(f, hash), CanonicalKey(g, hash)) && !LexLe(CanonicalKey(g, hash), CanonicalKey(f, hash))
  {
    var a, b := CanonicalKey(f, hash), CanonicalKey(g, hash);
    var c, d := a[1..][1..], b[1..][1..];
    assert a[0] == b[0] && a[1..][0] == b[1..][0] && c[0] < d[0];
    assert LexLe(a, b) == LexLe(a[1..], b[1..]) == LexLe(c, d);
    assert LexLe(b, a) == LexLe(b[1..], a[1..]) == LexLe(d, c);
  }

  /** Year-to-date facts of one lane are in canonical order as they are in time. */
  lemma ChainIsCanonical(chain: seq<Fact>, hash: Fact -> nat)
    requires EndsAscend(chain) && forall f, g :: f in chain && g in chain ==>
      f.concept == g.concept && f.alias == g.alias
    ensures Ordered(chain, CanonicalOrder(hash)) && DistinctKeys(chain, CanonicalOrder(hash)) && Distinct(chain)
  {
    var le := CanonicalOrder(hash);
    forall i, j | 0 <= i < j < |chain| ensures le(chain[i], chain[j]) && !le(chain[j], chain[i]) {
      EndsDecide(chain[i], chain[j], hash);
    }
    forall f, g | f in chain && g in chain && le(f, g) && le(g, f) ensures f == g {
      var i :| 0 <= i < |chain| && chain[i] == f;
      var j :| 0 <= j < |chain| && chain[j] == g;
      assert i < j || j < i || i == j;
    }
  }

  /** Whatever order the facts came in, the eligible ones are the chain. */
  lemma EligibleIsChain(setup: Setup, chain: seq<Fact>)
    requires OnlyYear(setup, chain) && EndsAscend(chain)
    requires forall f, g :: f in chain && g in chain ==> f.concept == g.concept && f.alias == g.alias
    ensures Eligible(InCanonicalOrder(setup), setup.concept, setup.kind, setup.priority) == chain
  {
    var le := CanonicalOrder(setup.hash);
    var sorted := InCanonicalOrder(setup);
    var eligible := Eligible(sorted, setup.concept, setup.kind, setup.priority);
    CanonicalOrderIsTotal(setup.hash);
    SortIsOrderedPermutation(setup.facts, le);
    SameMembers(sorted, setup.facts);
    PermutationKeepsDistinct(setup.facts, sorted);
    EligibleInOrder(sorted, setup.concept, setup.kind, setup.priority, le);
    EligibleMembers(sorted, setup.concept, setup.kind, setup.priority);
    forall f | f in chain ensures f in eligible {
      EligibleHasAll(sorted, setup.concept, setup.kind, setup.priority, f);
    }
    ChainIsCanonical(chain, setup.hash);
    SameMembersSameMultiset(chain, eligible);
    OrderedPermutationIsUnique(chain, eligible, le);
  }

  ghost predicate OwnPeriods(chain: seq<Fact>) {
    forall i, j :: 0 <= i < j < |chain| ==> KeyOf(chain[i]) != KeyOf(chain[j])
  }

  /** Facts of distinct periods are all selected. */
  lemma AllSelected(chain: seq<Fact>, priority: Priorities, f: Fact)
    requires OwnPeriods(chain) && (forall g :: g in chain ==> InScope(g, priority)) && f in chain
    ensures KeyOf(f) in Selected(chain, priority) && Selected(chain, priority)[KeyOf(f)] == f
  {
    SelectedFor(chain, priority, f);
    SelectedFrom(chain, priority, KeyOf(f));
    var g := Selected(chain, priority)[KeyOf(f)];
    var i :| 0 <= i < |chain| && chain[i] == f;
    var j :| 0 <= j < |chain| && chain[j] == g;
    assert i == j || i < j || j < i;
  }

  lemma SelectedAreChain(chain: seq<Fact>, priority: Priorities)
    requires OwnPeriods(chain) && forall f :: f in chain ==> InScope(f, priority)
    ensures forall f :: f in SelectedTuple(chain, priority) <==> f in chain
    ensures Distinct(SelectedTuple(chain, priority)) && Distinct(chain)
  {
    SelectedValues(chain, priority);
    forall f ensures f in SelectedTuple(chain, priority) <==> f in chain {
      if f in chain {
        AllSelected(chain, priority, f);
      } else if KeyOf(f) in Selected(chain, priority) {
        SelectedFrom(chain, priority, KeyOf(f));
      }
    }
  }

  lemma EndsOwnPeriods(chain: seq<Fact>)
    requires EndsAscend(chain) && forall f, g :: f in chain && g in chain && f.period == g.period ==> f == g
    ensures OwnPeriods(chain)
  {
    forall i, j | 0 <= i < j < |chain| ensures KeyOf(chain[i]) != KeyOf(chain[j]) {
      assert chain[i] in chain && chain[j] in chain && chain[i].end < chain[j].end;
    }
  }

  lemma ChainIsLatest(chain: seq<Fact>, priority: Priorities)
    requires EndsAscend(chain) && OwnPeriods(chain) && forall f :: f in chain ==> InScope(f, priority)
    requires forall i, j :: 0 <= i < j < |chain| ==> chain[i].concept == chain[j].concept
    ensures LatestVintages(chain, priority) == chain
  {
    var le := (f: Fact, g: Fact) => ByPeriod(f, g);
    SelectedAreChain(chain, priority);
    SameMembersSameMultiset(chain, SelectedTuple(chain, priority));
    ByPeriodIsTotal();
    SortIsOrderedPermutation(SelectedTuple(chain, priority), le);
    forall f, g | f in chain && g in chain && le(f, g) && le(g, f) ensures f == g {
      var i :| 0 <= i < |chain| && chain[i] == f;
      var j :| 0 <= j < |chain| && chain[j] == g;
      assert i == j || i < j || j < i;
    }
    OrderedPermutationIsUnique(chain, Sort(SelectedTuple(chain, priority), le), le);
  }

  lemma SingletonSorted(x: int)
    ensures SortedSet({x}) == [x]
  {
    assert {x} - {x} == {};
    assert SortedSet({}) == [];
  }

  /** One alias with one series: the only row. */
  lemma OnlyRow(chain: seq<Fact>, concept: nat, kind: Kind, ev: Evidence)
    requires chain != [] && (forall f :: f in chain ==> f.alias == chain[0].alias)
    requires LatestVintages(chain, ev.priority) == chain
    ensures var series := OnePerEnd(AllCandidates(chain, concept, kind), ev);
      RowsFor(chain, SortedSet(Grouped(chain, AliasOf).Keys), concept, kind, ev) == RowOf(chain[0].alias, series)
  {
    var alias: int := chain[0].alias;
    OneGroup(chain, AliasOf, alias);
    assert Grouped(chain, AliasOf).Keys == {alias};
    SingletonSorted(alias);
    assert [alias][..0] == [];
    assert RowsFor(chain, [], concept, kind, ev) == [];
    assert Series(chain, alias, concept, kind, ev) == OnePerEnd(AllCandidates(chain, concept, kind), ev);
  }

  lemma LastRowDecides(rows: seq<AliasQuarters>, alias: int, series: seq<Quarter>, kind: Kind, ev: Evidence, end: Date)
    requires rows == [AliasQuarters(alias, series)] && |series| == 4 && series[3].end == end
    requires HomogeneousTail(series, end) == Some(series) && AnchorOf(rows, Newest(rows), ev).Some?
    ensures TotalDays(series) != 0 && Usable(rows)
      && Decide(rows, kind, ev) == Available(alias, series, TtmValue(kind, series))
  {
    assert rows[..0] == [];
    assert Newest(rows) == end;
    TailHasDays(series, end);
  }

  lemma YearRows(setup: Setup, chain: seq<Fact>)
    requires YearToDate(setup.kind, chain, setup.concept) && OnlyYear(setup, chain)
    ensures Eligible(InCanonicalOrder(setup), setup.concept, setup.kind, setup.priority) == chain
    ensures var ev := EvidenceOf(setup);
      RowsFor(chain, SortedSet(Grouped(chain, AliasOf).Keys), setup.concept, setup.kind, ev) ==
        RowOf(chain[0].alias, OnePerEnd(AllCandidates(chain, setup.concept, setup.kind), ev))
  {
    YearToDateAscends(setup.kind, chain, setup.concept);
    assert forall f, g :: f in chain && g in chain ==> LaneOf(f) == LaneOf(g);
    EligibleIsChain(setup, chain);
    EndsOwnPeriods(chain);
    assert forall i, j :: 0 <= i < j < |chain| ==> chain[i] in chain && chain[j] in chain;
    ChainIsLatest(chain, setup.priority);
    assert forall f :: f in chain ==> LaneOf(f) == LaneOf(chain[0]);
    OnlyRow(chain, setup.concept, setup.kind, EvidenceOf(setup));
  }

  /** A request whose facts of the concept are a year filed by one alias as four
      year-to-date facts: the outcome is available, from the reported quarter and
      the three differences, and its amount is the full-year value as filed. */
  lemma YearToDateRequestGivesItsYear(setup: Setup, chain: seq<Fact>)
    requires YearToDate(setup.kind, chain, setup.concept) && |chain| == 4 && OnlyYear(setup, chain)
    requires MIN_ANNUAL_DAYS <= FactDays(chain[3]) <= MAX_ANNUAL_DAYS
    ensures var o := TtmOutcome(setup);
      && o.Available? && o.alias == chain[0].alias && o.window == Unrolled(setup.kind, chain)
      && o.value.value == chain[3].value && o.value.start == Begins(chain[3]) && o.value.end == chain[3].end
  {
    var ev := EvidenceOf(setup);
    var series := OnePerEnd(AllCandidates(chain, setup.concept, setup.kind), ev);
    YearRows(setup, chain);
    YearToDateFactsGiveTheirYear(setup.kind, chain, setup.concept, ev);
    SeriesIsWindow(setup.kind, chain, setup.concept, ev);
    var rows := RowOf(chain[0].alias, series);
    SomeRowAnchors(setup, SortedSet(Grouped(chain, AliasOf).Keys), rows);
    LastRowDecides(rows, chain[0].alias, series, setup.kind, ev, chain[3].end);
  }

  lemma SeriesIsWindow(kind: Kind, chain: seq<Fact>, concept: nat, ev: Evidence)
    requires YearToDate(kind, chain, concept)
    ensures OnePerEnd(AllCandidates(chain, concept, kind), ev) == Unrolled(kind, chain)
    ensures |Unrolled(kind, chain)| == |chain| && Unrolled(kind, chain)[|chain| - 1].end == chain[|chain| - 1].end
  {
    YearToDateIsUnrolled(kind, chain, concept);
    forall i | 0 <= i < |chain| ensures LaneOf(chain[i]) == LaneOf(chain[0]) {
      assert chain[i] in chain;
    }
    UnrolledInLane(kind, chain);
    YearToDateAscends(kind, chain, concept);
    AscendingIsSeries(Unrolled(kind, chain), ev);
  }
}
