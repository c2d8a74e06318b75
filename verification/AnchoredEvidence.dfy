/** What the anchored trailing twelve months says about the filed facts
    (sec_fundamentals.py): which facts its quarters were computed from, which
    filing controls an observation, and which alias is the anchor, each in the
    facts' own fields. */
module AnchoredEvidence {
  import opened Wrappers
  import opened Sorting
  import opened IntegerSets
  import opened Grouping
  import opened VintageSelection
  import opened QuarterSeries
  import opened QuarterCandidates
  import opened AnchoredTtm

  // ---------------------------------------------------------------------
  // Quarters of one alias
  // ---------------------------------------------------------------------

  predicate OfQuarterLength(start: Date, end: Date) {
    70 <= end - start + 1 <= 110
  }

  /** A fact that covers a quarter, as it was reported. */
  predicate Filed(q: Quarter, f: Fact) {
    && f.isDuration && f.start == Some(q.start) && f.end == q.end && OfQuarterLength(q.start, q.end)
    && q.value == f.value && q.unit == f.unit && q.availableAt == f.availableAt
    && q.sources == [f.pk] && q.aliases == [f.alias] && !q.derived
  }

  /** The days from the end of f to the end of g, for two facts that start together. */
  predicate Follows(q: Quarter, f: Fact, g: Fact) {
    && f.isDuration && g.isDuration && f.start.Some? && f.start == g.start && f.alias == g.alias && f.unit == g.unit
    && q.start == f.end + 1 && q.end == g.end && OfQuarterLength(q.start, q.end)
  }

  function DaysOf(start: Date, end: Date): real {
    (end - start + 1) as real
  }

  /** What is left of g when f is taken off: the difference of the amounts, or the
      positive average that, weighted by days, makes up the difference. */
  predicate Subtracted(q: Quarter, kind: Kind, f: Fact, g: Fact) {
    && Follows(q, f, g)
    && q.unit == g.unit && q.sources == [f.pk, g.pk] && q.aliases == [g.alias] && q.derived
    && q.availableAt >= f.availableAt && q.availableAt >= g.availableAt
    && (q.availableAt == f.availableAt || q.availableAt == g.availableAt)
    && (kind == Additive ==> q.value == g.value - f.value)
    && (kind == Weighted ==>
          && q.value > 0.0
          && q.value * DaysOf(q.start, q.end)
             == g.value * DaysOf(g.start.value, g.end) - f.value * DaysOf(f.start.value, f.end))
    && kind != Neither
  }

  /** h runs from the start of f, under the same alias and in the same unit. */
  predicate Beside(h: Fact, concept: nat, f: Fact) {
    && h.concept == concept && h.isDuration && h.start.Some? && h.start == f.start
    && h.alias == f.alias && h.unit == f.unit
  }

  /** Nothing of the same start, alias and unit ends between f and g. */
  ghost predicate Neighbours(facts: seq<Fact>, concept: nat, f: Fact, g: Fact) {
    forall h :: h in facts && Beside(h, concept, f) ==> !(f.end < h.end < g.end)
  }

  ghost predicate FromFacts(q: Quarter, facts: seq<Fact>, concept: nat, kind: Kind) {
    || (exists f :: f in facts && f.concept == concept && Filed(q, f))
    || (exists f, g :: f in facts && g in facts && f.concept == concept && g.concept == concept
                       && Subtracted(q, kind, f, g) && Neighbours(facts, concept, f, g))
  }

  lemma QuotientIs(x: real, d: real, y: real)
    requires d > 0.0 && y == x / d
    ensures y * d == x
  {
  }

  lemma DifferenceIsSubtracted(kind: Kind, f: Fact, g: Fact, q: Quarter)
    requires f.isDuration && g.isDuration && f.start.Some? && g.start.Some?
    requires LaneOf(f) == LaneOf(g) && Begins(f) == Begins(g) && Difference(kind, f, g) == Some(q)
    ensures Subtracted(q, kind, f, g)
  {
    if kind == Weighted {
      var total := g.value * FactDays(g) as real - f.value * FactDays(f) as real;
      QuotientIs(total, q.Days() as real, q.value);
    }
  }

  lemma {:induction false} ChainPairs(diff: (Fact, Fact) -> Option<Quarter>, chain: seq<Fact>, q: Quarter)
    ensures q in ChainDifferences(diff, chain) <==>
      exists i :: 0 < i < |chain| && diff(chain[i - 1], chain[i]) == Some(q)
  {
    if |chain| >= 2 {
      var front := chain[..|chain| - 1];
      ChainPairs(diff, front, q);
      if i :| 0 < i < |chain| && diff(chain[i - 1], chain[i]) == Some(q) {
        assert i < |front| ==> front[i - 1] == chain[i - 1] && front[i] == chain[i];
      }
    }
  }

  lemma {:induction false} LaneStarts(diff: (Fact, Fact) -> Option<Quarter>, lane: seq<Fact>, starts: seq<Date>,
                                      q: Quarter)
    ensures q in LaneDifferences(diff, lane, starts) <==>
      exists s :: s in starts && q in ChainDifferences(diff, Chain(lane, s))
  {
    if starts != [] {
      var front, last := starts[..|starts| - 1], starts[|starts| - 1];
      LaneStarts(diff, lane, front, q);
      assert starts == front + [last];
    }
  }

  function OfLane(diff: (Fact, Fact) -> Option<Quarter>, durations: seq<Fact>, lane: (nat, nat)): seq<Quarter> {
    LaneDifferences(diff, Filter(durations, LaneOf, lane), Keys(Filter(durations, LaneOf, lane), Begins))
  }

  lemma {:induction false} AllLanes(diff: (Fact, Fact) -> Option<Quarter>, durations: seq<Fact>,
                                    lanes: seq<(nat, nat)>, q: Quarter)
    ensures q in Differences(diff, durations, lanes) <==>
      exists l :: l in lanes && q in OfLane(diff, durations, l)
  {
    if lanes != [] {
      var front, last := lanes[..|lanes| - 1], lanes[|lanes| - 1];
      AllLanes(diff, durations, front, q);
      assert Differences(diff, durations, lanes) == Differences(diff, durations, front) + OfLane(diff, durations, last);
      assert lanes == front + [last];
    }
  }

  /** The facts of one alias, unit and start. */
  function ChainAt(durations: seq<Fact>, lane: (nat, nat), start: Date): seq<Fact> {
    Chain(Filter(durations, LaneOf, lane), start)
  }

  lemma ChainHolds(durations: seq<Fact>, lane: (nat, nat), start: Date)
    ensures forall f :: f in ChainAt(durations, lane, start) <==>
      f in durations && LaneOf(f) == lane && Begins(f) == start
    ensures forall i, k :: 0 <= i < k < |ChainAt(durations, lane, start)| ==>
      ChainAt(durations, lane, start)[i].end <= ChainAt(durations, lane, start)[k].end
  {
    var own := Filter(durations, LaneOf, lane);
    var chain := ChainAt(durations, lane, start);
    FilterMembers(durations, LaneOf, lane);
    FilterMembers(own, Begins, start);
    SortIsOrderedPermutation(Filter(own, Begins, start), ByEnd);
    SameMembers(Filter(own, Begins, start), chain);
    forall i, k | 0 <= i < k < |chain| ensures chain[i].end <= chain[k].end {
      assert ByEnd(chain[i], chain[k]);
    }
  }

  /** A difference that is listed comes from two neighbours of one chain. */
  ghost predicate PairOf(diff: (Fact, Fact) -> Option<Quarter>, durations: seq<Fact>, lane: (nat, nat), start: Date,
                         i: nat, q: Quarter) {
    0 < i < |ChainAt(durations, lane, start)|
    && diff(ChainAt(durations, lane, start)[i - 1], ChainAt(durations, lane, start)[i]) == Some(q)
  }

  lemma DifferencesArePairs(diff: (Fact, Fact) -> Option<Quarter>, durations: seq<Fact>, q: Quarter)
    ensures q in Differences(diff, durations, Keys(durations, LaneOf)) <==>
      exists lane, start, i :: PairOf(diff, durations, lane, start, i, q)
  {
    var lanes := Keys(durations, LaneOf);
    AllLanes(diff, durations, lanes, q);
    if q in Differences(diff, durations, lanes) {
      var l :| l in lanes && q in OfLane(diff, durations, l);
      LaneStarts(diff, Filter(durations, LaneOf, l), Keys(Filter(durations, LaneOf, l), Begins), q);
      var s :| q in ChainDifferences(diff, Chain(Filter(durations, LaneOf, l), s));
      ChainPairs(diff, ChainAt(durations, l, s), q);
      var i :| 0 < i < |ChainAt(durations, l, s)| && diff(ChainAt(durations, l, s)[i - 1], ChainAt(durations, l, s)[i])
        == Some(q);
      assert PairOf(diff, durations, l, s, i, q);
    }
    if lane, start, i :| PairOf(diff, durations, lane, start, i, q) {
      PairIsListed(diff, durations, lane, start, i, q);
    }
  }

  lemma PairIsListed(diff: (Fact, Fact) -> Option<Quarter>, durations: seq<Fact>, lane: (nat, nat), start: Date,
                     i: nat, q: Quarter)
    requires PairOf(diff, durations, lane, start, i, q)
    ensures q in Differences(diff, durations, Keys(durations, LaneOf))
  {
    ChainPairs(diff, ChainAt(durations, lane, start), q);
    LaneOfPair(durations, lane, start, ChainAt(durations, lane, start)[i]);
    LaneStarts(diff, Filter(durations, LaneOf, lane), Keys(Filter(durations, LaneOf, lane), Begins), q);
    AllLanes(diff, durations, Keys(durations, LaneOf), q);
  }

  lemma LaneOfPair(durations: seq<Fact>, lane: (nat, nat), start: Date, f: Fact)
    requires f in ChainAt(durations, lane, start)
    ensures lane in Keys(durations, LaneOf) && start in Keys(Filter(durations, LaneOf, lane), Begins)
  {
    ChainHolds(durations, lane, start);
    FilterMembers(durations, LaneOf, lane);
    KeysMembers(durations, LaneOf);
    KeysMembers(Filter(durations, LaneOf, lane), Begins);
    assert LaneOf(f) == lane && Begins(f) == start;
  }

  /** Every candidate is filed or subtracted from neighbouring facts. */
  lemma CandidateIsFromFacts(selected: seq<Fact>, concept: nat, kind: Kind, q: Quarter)
    requires q in AllCandidates(selected, concept, kind)
    ensures FromFacts(q, selected, concept, kind)
  {
    var durations := Durations(selected, concept);
    DurationMembers(selected, concept);
    if q in Directs(durations) {
      DirectMembers(durations, q);
      var f :| f in durations && q == Reported(f) && QuarterLength(q.Days());
      assert Filed(q, f);
    } else {
      DifferencesArePairs(DiffOf(kind), durations, q);
      var lane, start, i :| PairOf(DiffOf(kind), durations, lane, start, i, q);
      PairIsSubtracted(selected, concept, kind, lane, start, i, q);
    }
  }

  lemma PairIsSubtracted(selected: seq<Fact>, concept: nat, kind: Kind, lane: (nat, nat), start: Date, i: nat,
                         q: Quarter)
    requires PairOf(DiffOf(kind), Durations(selected, concept), lane, start, i, q)
    ensures exists f, g :: f in selected && g in selected && f.concept == concept && g.concept == concept
                           && Subtracted(q, kind, f, g) && Neighbours(selected, concept, f, g)
  {
    var durations := Durations(selected, concept);
    var chain := ChainAt(durations, lane, start);
    DurationMembers(selected, concept);
    ChainHolds(durations, lane, start);
    var f, g := chain[i - 1], chain[i];
    assert f in chain && g in chain;
    DifferenceIsSubtracted(kind, f, g, q);
    forall h | h in selected && Beside(h, concept, f) ensures !(f.end < h.end < g.end) {
      assert h in chain;
      var k :| 0 <= k < |chain| && chain[k] == h;
      assert k <= i - 1 || k >= i;
    }
  }

  lemma {:induction false} DirectsAreListed(durations: seq<Fact>, f: Fact)
    requires f in durations && QuarterLength(Reported(f).Days())
    ensures Reported(f) in Directs(durations)
  {
    var front, last := durations[..|durations| - 1], durations[|durations| - 1];
    assert durations == front + [last];
    if f in front {
      DirectsAreListed(front, f);
    }
  }

  /** Every fact that covers a quarter is a candidate as it was filed. */
  lemma FiledIsCandidate(selected: seq<Fact>, concept: nat, kind: Kind, f: Fact, q: Quarter)
    requires f in selected && f.concept == concept && Filed(q, f)
    ensures q in AllCandidates(selected, concept, kind)
  {
    DurationMembers(selected, concept);
    assert q == Reported(f);
    DirectsAreListed(Durations(selected, concept), f);
  }

  /** The only fact of its alias, unit, start and end. */
  ghost predicate OnlyOne(facts: seq<Fact>, concept: nat, f: Fact) {
    forall h :: h in facts && Beside(h, concept, f) && h.end == f.end ==> h == f
  }

  ghost predicate ListedOnce(facts: seq<Fact>) {
    forall i, k :: 0 <= i < k < |facts| ==> facts[i] != facts[k]
  }

  lemma {:induction false} DurationsOnce(selected: seq<Fact>, concept: nat)
    requires ListedOnce(selected)
    ensures ListedOnce(Durations(selected, concept))
  {
    if selected != [] {
      var front := selected[..|selected| - 1];
      DurationsOnce(front, concept);
      DurationMembers(front, concept);
      var rest := Durations(front, concept);
      assert forall x :: 0 <= x < |rest| ==> rest[x] in rest;
    }
  }

  lemma {:induction false} FilterOnce<K(!new)>(facts: seq<Fact>, key: Fact -> K, k: K)
    requires ListedOnce(facts)
    ensures ListedOnce(Filter(facts, key, k))
  {
    if facts != [] {
      var front := facts[..|facts| - 1];
      FilterOnce(front, key, k);
      FilterMembers(front, key, k);
      var rest := Filter(front, key, k);
      assert forall x :: 0 <= x < |rest| ==> rest[x] in rest;
    }
  }

  lemma ChainOnce(durations: seq<Fact>, lane: (nat, nat), start: Date)
    requires ListedOnce(durations)
    ensures ListedOnce(ChainAt(durations, lane, start))
  {
    var own := Filter(Filter(durations, LaneOf, lane), Begins, start);
    FilterOnce(durations, LaneOf, lane);
    FilterOnce(Filter(durations, LaneOf, lane), Begins, start);
    SortKeepsElements(own, ByEnd);
    PermutationKeepsDistinct(own, ChainAt(durations, lane, start));
  }

  /** Every quarter between two neighbouring facts, with no other fact of their
      dates, is a candidate. */
  lemma SubtractedIsCandidate(selected: seq<Fact>, concept: nat, kind: Kind, f: Fact, g: Fact, q: Quarter)
    requires ListedOnce(selected)
    requires f in selected && g in selected && f.concept == concept && g.concept == concept
    requires Subtracted(q, kind, f, g) && Neighbours(selected, concept, f, g)
    requires OnlyOne(selected, concept, f) && OnlyOne(selected, concept, g)
    ensures q in AllCandidates(selected, concept, kind)
  {
    var durations := Durations(selected, concept);
    var chain := ChainAt(durations, LaneOf(f), Begins(f));
    DurationMembers(selected, concept);
    DurationsOnce(selected, concept);
    ChainHolds(durations, LaneOf(f), Begins(f));
    ChainOnce(durations, LaneOf(f), Begins(f));
    var i :| 0 <= i < |chain| && chain[i] == f;
    var k :| 0 <= k < |chain| && chain[k] == g;
    assert i < k && chain[i + 1] in chain;
    NextInChain(selected, concept, chain, i, k);
    SubtractedIsDifference(kind, f, g, q);
    assert PairOf(DiffOf(kind), durations, LaneOf(f), Begins(f), k, q);
    PairIsListed(DiffOf(kind), durations, LaneOf(f), Begins(f), k, q);
  }

  lemma NextInChain(selected: seq<Fact>, concept: nat, chain: seq<Fact>, i: nat, k: nat)
    requires i < k < |chain| && ListedOnce(chain) && chain[i + 1] in selected && Beside(chain[i + 1], concept, chain[i])
    requires chain[i].end <= chain[i + 1].end <= chain[k].end && Neighbours(selected, concept, chain[i], chain[k])
    requires OnlyOne(selected, concept, chain[i]) && OnlyOne(selected, concept, chain[k])
    requires Beside(chain[k], concept, chain[i])
    ensures k == i + 1
  {
    assert Beside(chain[i + 1], concept, chain[k]);
  }

  lemma QuotientOfProduct(x: real, v: real, d: real)
    requires d > 0.0 && x == v * d
    ensures x / d == v
  {
  }

  lemma SubtractedIsDifference(kind: Kind, f: Fact, g: Fact, q: Quarter)
    requires Subtracted(q, kind, f, g)
    ensures Difference(kind, f, g) == Some(q)
  {
    if kind == Weighted {
      var total := g.value * FactDays(g) as real - f.value * FactDays(f) as real;
      QuotientOfProduct(total, q.value, (q.end - q.start + 1) as real);
      assert Difference(kind, f, g).Some? && Difference(kind, f, g).value.value == q.value;
    }
  }

  // ---------------------------------------------------------------------
  // The filing that controls an observation
  // ---------------------------------------------------------------------

  /** f is one of the facts the observation was computed from, as the request has it. */
  ghost predicate Cited(q: Quarter, ev: Evidence, f: Fact) {
    exists i :: 0 <= i < |q.sources| && q.sources[i] in ev.facts && ev.facts[q.sources[i]] == f
  }

  lemma {:induction false} ReadableMembers(sources: seq<nat>, facts: map<nat, Fact>)
    ensures forall f :: f in Readable(sources, facts) <==>
      exists i :: 0 <= i < |sources| && sources[i] in facts && facts[sources[i]] == f
  {
    if sources != [] {
      var front := sources[..|sources| - 1];
      ReadableMembers(front, facts);
      forall f ensures f in Readable(sources, facts) <==>
        exists i :: 0 <= i < |sources| && sources[i] in facts && facts[sources[i]] == f
      {
        if i :| 0 <= i < |sources| && sources[i] in facts && facts[sources[i]] == f {
          assert i < |front| ==> front[i] == sources[i];
        }
        if f in Readable(front, facts) {
          var i :| 0 <= i < |front| && front[i] in facts && facts[front[i]] == f;
          assert sources[i] == front[i];
        }
      }
    }
  }

  /** An observation is controlled by the most current of the facts it cites. */
  lemma ControllingByFields(q: Quarter, ev: Evidence)
    ensures Controlling(q, ev).Some? <==> exists f :: Cited(q, ev, f)
    ensures Controlling(q, ev).Some? ==> Cited(q, ev, Controlling(q, ev).value)
    ensures Controlling(q, ev).Some? ==>
      forall f :: Cited(q, ev, f) ==> AsCurrentAs(Controlling(q, ev).value, f, ev.priority)
  {
    var facts := Readable(q.sources, ev.facts);
    ReadableMembers(q.sources, ev.facts);
    forall f ensures Cited(q, ev, f) <==> f in facts {}
    if facts != [] {
      TopFactIsTop(facts, ev.priority);
      assert facts[0] in facts && Cited(q, ev, facts[0]);
      forall f | Cited(q, ev, f) ensures AsCurrentAs(Controlling(q, ev).value, f, ev.priority) {
        RankComparesFields(Controlling(q, ev).value, f, ev.priority);
      }
    }
  }

  predicate Alike(f: Fact, g: Fact, priority: Priorities) {
    && f.availableAt == g.availableAt && f.revision == g.revision && f.accession == g.accession
    && Place(f, priority) == Place(g, priority)
  }

  /** q stands before c: a readable filing before none, then the more current
      controlling filing, then the larger identity. */
  ghost predicate StandsBefore(q: Quarter, c: Quarter, ev: Evidence) {
    match (Controlling(q, ev), Controlling(c, ev))
    case (None, None) => ev.identify(q) >= ev.identify(c)
    case (None, Some(_)) => false
    case (Some(_), None) => true
    case (Some(f), Some(g)) =>
      AsCurrentAs(f, g, ev.priority) && (Alike(f, g, ev.priority) ==> ev.identify(q) >= ev.identify(c))
  }

  lemma OutranksByFields(q: Quarter, c: Quarter, ev: Evidence)
    ensures Outranks(c, q, ev) <==> !StandsBefore(q, c, ev)
  {
    if Controlling(q, ev).Some? && Controlling(c, ev).Some? {
      var f, g := Controlling(q, ev).value, Controlling(c, ev).value;
      RankComparesFields(f, g, ev.priority);
      assert RankOf(f, ev.priority) == RankOf(g, ev.priority) <==> Alike(f, g, ev.priority);
    }
  }

  lemma KeptAt(candidates: seq<Quarter>, values: seq<Quarter>, ev: Evidence, c: Quarter) returns (q: Quarter)
    requires OnePerEndHolds(candidates, values, ev) && c in candidates
    ensures q in values && q.end == c.end && !Outranks(c, q, ev)
  {
    q :| q in values && q.end == c.end && !Outranks(c, q, ev);
  }

  /** An alias keeps one observation for each quarter end of its candidates. */
  ghost predicate KeepsEnds(candidates: seq<Quarter>, values: seq<Quarter>) {
    && QuartersAscend(values)
    && (forall q :: q in values ==> q in candidates)
    && (forall c :: c in candidates ==> exists q :: q in values && q.end == c.end)
  }

  lemma SeriesByFields(candidates: seq<Quarter>, ev: Evidence)
    ensures KeepsEnds(candidates, OnePerEnd(candidates, ev))
  {
    OnePerEndIsRight(candidates, ev);
    KeptEnds(candidates, OnePerEnd(candidates, ev), ev);
  }

  lemma KeptEnds(candidates: seq<Quarter>, values: seq<Quarter>, ev: Evidence)
    requires OnePerEndHolds(candidates, values, ev)
    ensures KeepsEnds(candidates, values)
  {
    forall c | c in candidates ensures exists q :: q in values && q.end == c.end {
      var q := KeptAt(candidates, values, ev, c);
    }
  }

  /** The one that stands before all of that end. */
  lemma KeptStandsBefore(candidates: seq<Quarter>, ev: Evidence, q: Quarter, c: Quarter)
    requires q in OnePerEnd(candidates, ev) && c in candidates && q.end == c.end
    ensures StandsBefore(q, c, ev)
  {
    OnePerEndIsRight(candidates, ev);
    var best := KeptAt(candidates, OnePerEnd(candidates, ev), ev, c);
    SameEnd(OnePerEnd(candidates, ev), q, best);
    OutranksByFields(q, c, ev);
  }

  lemma SameEnd(values: seq<Quarter>, q: Quarter, r: Quarter)
    requires QuartersAscend(values) && q in values && r in values && q.end == r.end
    ensures q == r
  {
    var i :| 0 <= i < |values| && values[i] == q;
    var k :| 0 <= k < |values| && values[k] == r;
    assert i < k || k < i || i == k;
  }

  // ---------------------------------------------------------------------
  // The facts of one request
  // ---------------------------------------------------------------------

  /** A reviewed SEC duration fact of the requested concept. */
  predicate Considered(setup: Setup, f: Fact) {
    && f in setup.facts && f.sec && (f.concept, f.alias) in setup.priority
    && f.isDuration && f.concept == setup.concept && setup.kind != Neither
  }

  /** The canonical order: concept, alias, end, start, period, availability, revision,
      accession, unit, and last the identity hash. */
  predicate Canonically(f: Fact, g: Fact, hash: Fact -> nat) {
    if f.concept != g.concept then f.concept < g.concept
    else if f.alias != g.alias then f.alias < g.alias
    else if f.end != g.end then f.end < g.end
    else if f.start.GetOr(f.end) != g.start.GetOr(g.end) then f.start.GetOr(f.end) < g.start.GetOr(g.end)
    else if f.period != g.period then f.period < g.period
    else if f.availableAt != g.availableAt then f.availableAt < g.availableAt
    else if f.revision != g.revision then f.revision < g.revision
    else if f.accession != g.accession then f.accession < g.accession
    else if f.unit != g.unit then f.unit < g.unit
    else hash(f) <= hash(g)
  }

  /** Lists of ten numbers are compared at the first place where they differ. */
  lemma {:induction false} FirstDifference(a: seq<int>, b: seq<int>, i: nat)
    requires |a| == |b| && i <= |a| && forall k :: 0 <= k < i ==> a[k] == b[k]
    ensures LexLe(a, b) <==> (i == |a| || a[i] < b[i] || (a[i] == b[i] && LexLe(a[i..], b[i..])))
  {
    if i > 0 {
      FirstDifference(a[1..], b[1..], i - 1);
      assert a[1..][i - 1..] == a[i..] && b[1..][i - 1..] == b[i..];
    } else {
      assert a[0..] == a && b[0..] == b;
    }
  }

  lemma CanonicalOrderByFields(f: Fact, g: Fact, hash: Fact -> nat)
    ensures CanonicalOrder(hash)(f, g) <==> Canonically(f, g, hash)
  {
    var a, b := CanonicalKey(f, hash), CanonicalKey(g, hash);
    var k := 0;
    while k < 10 && a[k] == b[k]
      invariant k <= 10 && forall j :: 0 <= j < k ==> a[j] == b[j]
    {
      k := k + 1;
    }
    FirstDifference(a, b, k);
    assert k == 0 || k == 1 || k == 2 || k == 3 || k == 4 || k == 5 || k == 6 || k == 7 || k == 8 || k == 9 || k == 10;
    assert a[0] == b[0] <==> k > 0;
    assert k > 0 ==> (a[1] == b[1] <==> k > 1);
    assert k > 1 ==> (a[2] == b[2] <==> k > 2);
    assert k > 2 ==> (a[3] == b[3] <==> k > 3);
    assert k > 3 ==> (a[4] == b[4] <==> k > 4);
    assert k > 4 ==> (a[5] == b[5] <==> k > 5);
    assert k > 5 ==> (a[6] == b[6] <==> k > 6);
    assert k > 6 ==> (a[7] == b[7] <==> k > 7);
    assert k > 7 ==> (a[8] == b[8] <==> k > 8);
    assert k > 8 ==> (a[9] == b[9] <==> k > 9);
  }

  /** The request's facts are examined in that order, each as often as it is given. */
  lemma ExaminedCanonically(setup: Setup)
    ensures var ordered := InCanonicalOrder(setup);
      && multiset(ordered) == multiset(setup.facts)
      && forall i, k :: 0 <= i < k < |ordered| ==> Canonically(ordered[i], ordered[k], setup.hash)
  {
    var ordered, le := InCanonicalOrder(setup), CanonicalOrder(setup.hash);
    CanonicalOrderIsTotal(setup.hash);
    SortIsOrderedPermutation(setup.facts, le);
    forall i, k | 0 <= i < k < |ordered| ensures Canonically(ordered[i], ordered[k], setup.hash) {
      assert le(ordered[i], ordered[k]);
      CanonicalOrderByFields(ordered[i], ordered[k], setup.hash);
    }
  }

  /** A primary key names the last fact that has it. */
  lemma {:induction false} LastOfKeyIsNamed(facts: seq<Fact>, i: nat)
    requires i < |facts| && forall k :: i < k < |facts| ==> facts[k].pk != facts[i].pk
    ensures facts[i].pk in FactMap(facts) && FactMap(facts)[facts[i].pk] == facts[i]
  {
    if i < |facts| - 1 {
      LastOfKeyIsNamed(facts[..|facts| - 1], i);
    }
  }

  function EligibleOf(setup: Setup): seq<Fact> {
    Eligible(InCanonicalOrder(setup), setup.concept, setup.kind, setup.priority)
  }

  /** The current vintages of one alias. */
  function CurrentOf(setup: Setup, alias: int): seq<Fact> {
    Selection(EligibleOf(setup), alias, setup.priority)
  }

  lemma {:induction false} EligibleExactly(ordered: seq<Fact>, concept: nat, kind: Kind, priority: Priorities)
    ensures forall f :: f in Eligible(ordered, concept, kind, priority) <==>
      f in ordered && Trailing(f, concept, kind, priority)
  {
    if ordered != [] {
      EligibleExactly(ordered[..|ordered| - 1], concept, kind, priority);
      assert ordered == ordered[..|ordered| - 1] + [ordered[|ordered| - 1]];
    }
  }

  lemma EligibleIsConsidered(setup: Setup)
    ensures forall f :: f in EligibleOf(setup) <==> Considered(setup, f)
  {
    EligibleExactly(InCanonicalOrder(setup), setup.concept, setup.kind, setup.priority);
    SortKeepsElements(setup.facts, CanonicalOrder(setup.hash));
    SameMembers(setup.facts, InCanonicalOrder(setup));
  }

  /** An alias's current vintages: one considered fact for every period of the
      alias, the most current one when availability follows revision. */
  lemma CurrentByFields(setup: Setup, alias: int)
    ensures var current := CurrentOf(setup, alias);
      && (forall f :: f in current ==> Considered(setup, f) && f.alias == alias)
      && (forall g :: Considered(setup, g) && g.alias == alias ==> exists f :: f in current && f.period == g.period)
      && (forall f, g :: f in current && g in current && f.period == g.period ==> f == g)
      && (AvailabilityFollowsRevision(setup.facts) ==>
            forall f, g :: f in current && Considered(setup, g) && g.alias == alias && g.period == f.period ==>
              AsCurrentAs(f, g, setup.priority))
  {
    var own, current := Filter(EligibleOf(setup), AliasOf, alias), CurrentOf(setup, alias);
    EligibleIsConsidered(setup);
    FilterMembers(EligibleOf(setup), AliasOf, alias);
    assert forall f :: f in own <==> Considered(setup, f) && f.alias == alias;
    VintagesByKey(own, setup.priority);
    forall g | Considered(setup, g) && g.alias == alias ensures exists f :: f in current && f.period == g.period {
      assert g in own && Reviewed(g, setup.priority);
    }
    if AvailabilityFollowsRevision(setup.facts) {
      assert AvailabilityFollowsRevision(own);
      forall f, g | f in current && Considered(setup, g) && g.alias == alias && g.period == f.period
        ensures AsCurrentAs(f, g, setup.priority)
      {
        VintagesAreMostCurrent(own, setup.priority, f);
        assert g in own && Reviewed(g, setup.priority) && f in own;
      }
    }
  }

  function CandidatesOf(setup: Setup, alias: int): seq<Quarter> {
    AllCandidates(CurrentOf(setup, alias), setup.concept, setup.kind)
  }

  function SeriesOf(setup: Setup, alias: int): seq<Quarter> {
    Series(EligibleOf(setup), alias, setup.concept, setup.kind, EvidenceOf(setup))
  }

  function RowsOf(setup: Setup): (rows: seq<AliasQuarters>)
    ensures Usable(rows)
  {
    Rows(InCanonicalOrder(setup), setup.concept, setup.kind, EvidenceOf(setup))
  }

  lemma {:induction false} RowsGrow(eligible: seq<Fact>, aliases: seq<int>, concept: nat, kind: Kind, ev: Evidence,
                                    i: nat)
    requires i <= |aliases|
    ensures RowsFor(eligible, aliases[..i], concept, kind, ev) <= RowsFor(eligible, aliases, concept, kind, ev)
    decreases |aliases| - i
  {
    if i < |aliases| {
      NextRow(eligible, aliases, i, concept, kind, ev);
      RowsGrow(eligible, aliases, concept, kind, ev, i + 1);
    } else {
      assert aliases[..i] == aliases;
    }
  }

  lemma RowListed(eligible: seq<Fact>, aliases: seq<int>, concept: nat, kind: Kind, ev: Evidence, i: nat,
                  values: seq<Quarter>)
    requires i < |aliases| && values == Series(eligible, aliases[i], concept, kind, ev) && values != []
    ensures AliasQuarters(aliases[i], values) in RowsFor(eligible, aliases, concept, kind, ev)
  {
    NextRow(eligible, aliases, i, concept, kind, ev);
    LastRowListed(RowsFor(eligible, aliases[..i], concept, kind, ev), aliases[i], values);
    RowsGrow(eligible, aliases, concept, kind, ev, i + 1);
    InLonger(AliasQuarters(aliases[i], values), RowsFor(eligible, aliases[..i + 1], concept, kind, ev),
      RowsFor(eligible, aliases, concept, kind, ev));
  }

  lemma InLonger(row: AliasQuarters, rows: seq<AliasQuarters>, longer: seq<AliasQuarters>)
    requires row in rows && rows <= longer
    ensures row in longer
  {
    var k :| 0 <= k < |rows| && rows[k] == row;
    assert longer[k] == row;
  }

  lemma LastRowListed(rows: seq<AliasQuarters>, alias: int, values: seq<Quarter>)
    requires values != []
    ensures AliasQuarters(alias, values) in rows + RowOf(alias, values)
  {
  }

  lemma SeriesKeepsEnds(setup: Setup, alias: int)
    ensures KeepsEnds(CandidatesOf(setup, alias), SeriesOf(setup, alias))
  {
    SeriesByFields(CandidatesOf(setup, alias), EvidenceOf(setup));
  }

  lemma KeptIsCandidate(candidates: seq<Quarter>, values: seq<Quarter>, q: Quarter)
    requires KeepsEnds(candidates, values) && q in values
    ensures q in candidates
  {
  }

  lemma CandidatesEndBy(candidates: seq<Quarter>, values: seq<Quarter>, end: Date, q: Quarter)
    requires KeepsEnds(candidates, values) && q in candidates && EndsBy(values, end)
    ensures q.end <= end
  {
  }

  lemma SomethingKept(candidates: seq<Quarter>, values: seq<Quarter>)
    requires KeepsEnds(candidates, values)
    ensures values == [] ==> candidates == []
  {
    if candidates != [] {
      assert candidates[0] in candidates;
    }
  }

  lemma SeriesOfNobody(setup: Setup, alias: int)
    requires SeriesOf(setup, alias) != []
    ensures exists f :: Considered(setup, f) && f.alias == alias
  {
    var q := SeriesOf(setup, alias)[0];
    SeriesKeepsEnds(setup, alias);
    KeptIsCandidate(CandidatesOf(setup, alias), SeriesOf(setup, alias), q);
    CandidateIsFromFacts(CurrentOf(setup, alias), setup.concept, setup.kind, q);
    CurrentByFields(setup, alias);
  }

  lemma AliasOfFactIsListed(eligible: seq<Fact>, f: Fact)
    requires f in eligible
    ensures f.alias in SortedSet(Grouped(eligible, AliasOf).Keys)
  {
    KeysMembers(eligible, AliasOf);
    assert AliasOf(f) == f.alias;
  }

  lemma AliasIsListed(setup: Setup, alias: int)
    requires SeriesOf(setup, alias) != []
    ensures alias in SortedSet(Grouped(EligibleOf(setup), AliasOf).Keys)
  {
    SeriesOfNobody(setup, alias);
    var f :| Considered(setup, f) && f.alias == alias;
    EligibleIsConsidered(setup);
    AliasOfFactIsListed(EligibleOf(setup), f);
  }

  /** There is one row for every alias that yields a quarter, and no other. */
  lemma RowsExactly(setup: Setup)
    ensures forall row :: row in RowsOf(setup) <==> row.values == SeriesOf(setup, row.alias) != []
  {
    var eligible := EligibleOf(setup);
    var aliases := SortedSet(Grouped(eligible, AliasOf).Keys);
    forall row | row in RowsOf(setup) ensures row.values == SeriesOf(setup, row.alias) != [] {
      RowIsSeries(eligible, aliases, setup.concept, setup.kind, EvidenceOf(setup), row);
    }
    forall row: AliasQuarters | row.values == SeriesOf(setup, row.alias) != [] ensures row in RowsOf(setup) {
      AliasIsListed(setup, row.alias);
      var i: nat :| i < |aliases| && aliases[i] == row.alias;
      RowListed(eligible, aliases, setup.concept, setup.kind, EvidenceOf(setup), i, row.values);
    }
  }

  // ---------------------------------------------------------------------
  // The four quarters of the trailing value
  // ---------------------------------------------------------------------

  /** Four quarters without a gap, in one unit and under one list of aliases, over 350 to 380 days. */
  predicate FullYear(window: seq<Quarter>) {
    && |window| == 4
    && (forall i :: 0 <= i < 3 ==> window[i + 1].start == window[i].end + 1)
    && (forall i :: 0 <= i < 4 ==> window[i].unit == window[0].unit && window[i].aliases == window[0].aliases)
    && 350 <= window[3].end - window[0].start + 1 <= 380
  }

  lemma {:induction false} ThroughAll(values: seq<Quarter>, through: Date)
    requires forall i :: 0 <= i < |values| ==> values[i].end <= through
    ensures Through(values, through) == values
  {
    if values != [] {
      ThroughAll(values[..|values| - 1], through);
    }
  }

  /** A series that ends at the date gives its last four quarters, if they make a full year. */
  lemma TailByFields(values: seq<Quarter>, through: Date)
    requires QuartersAscend(values) && values != [] && values[|values| - 1].end == through
    ensures HomogeneousTail(values, through) ==
      if |values| >= 4 && FullYear(values[|values| - 4..]) then Some(values[|values| - 4..]) else None
  {
    forall i | 0 <= i < |values| ensures values[i].end <= through {
      assert i == |values| - 1 || values[i].end < values[|values| - 1].end;
    }
    ThroughAll(values, through);
    if |values| >= 4 {
      HomogeneousIsFullYear(values[|values| - 4..]);
    }
  }

  lemma HomogeneousIsFullYear(window: seq<Quarter>)
    requires |window| == 4
    ensures FullYear(window) <==>
      Contiguous(window) && Compatible(window) && MIN_ANNUAL_DAYS <= AnchoredTtm.Span(window) <= MAX_ANNUAL_DAYS
  {
    assert forall q :: q in window ==> q == window[0] || q == window[1] || q == window[2] || q == window[3];
    assert window[0] in window && window[1] in window && window[2] in window && window[3] in window;
    assert Contiguous(window) <==> forall i :: 0 <= i < 3 ==> window[i + 1].start == window[i].end + 1;
  }

  predicate LastOf(at: Instant, window: seq<Quarter>) {
    && (forall i :: 0 <= i < |window| ==> window[i].availableAt <= at)
    && exists i :: 0 <= i < |window| && window[i].availableAt == at
  }

  lemma {:induction false} LatestAvailableIsLast(window: seq<Quarter>)
    requires window != []
    ensures LastOf(LatestAvailable(window), window)
  {
    if |window| > 1 {
      var front := window[..|window| - 1];
      LatestAvailableIsLast(front);
      var i :| 0 <= i < |front| && front[i].availableAt == LatestAvailable(front);
      assert window[i] == front[i];
      forall k | 0 <= k < |front| ensures window[k].availableAt <= LatestAvailable(front) {
        assert window[k] == front[k];
      }
    }
  }

  lemma {:induction false} AllSourcesMembers(window: seq<Quarter>)
    ensures forall id :: id in AllSources(window) <==> exists i :: 0 <= i < |window| && id in window[i].sources
  {
    if window != [] {
      var front := window[..|window| - 1];
      AllSourcesMembers(front);
      forall id ensures id in AllSources(window) <==> exists i :: 0 <= i < |window| && id in window[i].sources {
        if i :| 0 <= i < |window| && id in window[i].sources {
          assert i < |front| ==> front[i] == window[i];
        }
        if id in AllSources(front) {
          var i :| 0 <= i < |front| && id in front[i].sources;
          assert window[i] == front[i];
        }
      }
    }
  }

  lemma WeightedTotalOfFour(window: seq<Quarter>)
    requires |window| == 4
    ensures WeightedTotal(window) ==
      window[0].value * DaysOf(window[0].start, window[0].end) + window[1].value * DaysOf(window[1].start,
        window[1].end)
      + window[2].value * DaysOf(window[2].start, window[2].end) + window[3].value * DaysOf(window[3].start,
        window[3].end)
  {
    assert window[..3][..2] == window[..2] && window[..2][..1] == window[..1] && window[..1][..0] == [];
    assert WeightedTotal(window[..1]) == window[0].value * DaysOf(window[0].start, window[0].end);
    assert WeightedTotal(window[..2]) == WeightedTotal(window[..1])
      + window[1].value * DaysOf(window[1].start, window[1].end);
    assert WeightedTotal(window[..3]) == WeightedTotal(window[..2])
      + window[2].value * DaysOf(window[2].start, window[2].end);
  }

  /** The amounts of four quarters in one value: their sum, or the average that,
      weighted by days, makes up the weighted sum. */
  predicate AddsUp(kind: Kind, window: seq<Quarter>, value: Quarter)
    requires |window| == 4
  {
    && (kind == Additive ==> value.value == window[0].value + window[1].value + window[2].value + window[3].value)
    && (kind == Weighted ==>
          value.value * DaysOf(value.start, value.end) ==
          window[0].value * DaysOf(window[0].start, window[0].end) + window[1].value * DaysOf(window[1].start,
            window[1].end)
          + window[2].value * DaysOf(window[2].start, window[2].end)
          + window[3].value * DaysOf(window[3].start, window[3].end))
  }

  /** What the trailing value says of its four quarters. */
  ghost predicate Summarizes(kind: Kind, window: seq<Quarter>, value: Quarter)
    requires |window| == 4
  {
    && AddsUp(kind, window, value)
    && value.start == window[0].start && value.end == window[3].end
    && value.unit == window[3].unit && value.aliases == window[3].aliases && value.derived
    && LastOf(value.availableAt, window)
    && forall id :: id in value.sources <==> exists i :: 0 <= i < 4 && id in window[i].sources
  }

  lemma ValueSummarizes(kind: Kind, window: seq<Quarter>)
    requires FullYear(window) && TotalDays(window) != 0
    ensures Summarizes(kind, window, TtmValue(kind, window))
  {
    var value := TtmValue(kind, window);
    forall i | 0 <= i < |window| - 1 ensures window[i + 1].start - window[i].end - 1 == 0 {}
    DaysAddUp(window);
    LatestAvailableIsLast(window);
    AllSourcesMembers(window);
    KeysMembers(AllSources(window), Itself);
    forall id ensures id in value.sources <==> exists i :: 0 <= i < 4 && id in window[i].sources {
      assert id in AllSources(window) ==> Itself(id) == id;
    }
    ValueAddsUp(kind, window);
  }

  lemma ValueAddsUp(kind: Kind, window: seq<Quarter>)
    requires |window| == 4 && TotalDays(window) == window[3].end - window[0].start + 1 && TotalDays(window) > 0
    ensures AddsUp(kind, window, TtmValue(kind, window))
  {
    TotalOfFour(window);
    if kind == Weighted {
      WeightedTotalOfFour(window);
      QuotientIs(WeightedTotal(window), TotalDays(window) as real, TtmAmount(kind, window));
    }
  }

  // ---------------------------------------------------------------------
  // The outcome of a request
  // ---------------------------------------------------------------------

  /** The kept observation of one alias that ends on a date. */
  ghost predicate Observes(setup: Setup, alias: int, end: Date, q: Quarter) {
    q in SeriesOf(setup, alias) && q.end == end
  }

  /** Some alias yields a quarter that ends then, and none yields a later one. */
  ghost predicate NewestEnd(setup: Setup, end: Date) {
    && (exists alias, q :: Observes(setup, alias, end, q))
    && forall alias :: EndsBy(SeriesOf(setup, alias), end)
  }

  ghost predicate EndsBy(values: seq<Quarter>, end: Date) {
    forall q :: q in values ==> q.end <= end
  }

  /** The alias whose newest observation is controlled by the most current
      filing, the first in alphabetical order of those that are alike. */
  ghost predicate Anchors(setup: Setup, alias: int, end: Date) {
    exists f :: Controls(setup, alias, end, f)
      && forall other, g :: Controls(setup, other, end, g) ==> Wins(setup, alias, f, other, g)
  }

  /** f controls the alias's observation that ends then. */
  ghost predicate Controls(setup: Setup, alias: int, end: Date, f: Fact) {
    exists q :: Observes(setup, alias, end, q) && Controlling(q, EvidenceOf(setup)) == Some(f)
  }

  predicate Wins(setup: Setup, alias: int, f: Fact, other: int, g: Fact) {
    AsCurrentAs(f, g, setup.priority) && (Alike(f, g, setup.priority) ==> alias <= other)
  }

  lemma SeriesAscendsOf(setup: Setup, alias: int)
    ensures QuartersAscend(SeriesOf(setup, alias))
  {
    SeriesKeepsEnds(setup, alias);
  }

  lemma {:induction false} LastAtIs(values: seq<Quarter>, end: Date, q: Quarter)
    requires QuartersAscend(values)
    ensures LastAt(values, end) == Some(q) <==> q in values && q.end == end
  {
    if values != [] {
      var front, last := values[..|values| - 1], values[|values| - 1];
      LastAtIs(front, end, q);
      assert values == front + [last];
      if q in front {
        var i :| 0 <= i < |front| && front[i] == q;
        assert values[i].end < last.end;
      }
    }
  }

  lemma RowOfAlias(setup: Setup, alias: int) returns (k: nat)
    requires SeriesOf(setup, alias) != []
    ensures k < |RowsOf(setup)| && RowsOf(setup)[k] == AliasQuarters(alias, SeriesOf(setup, alias))
  {
    RowsExactly(setup);
    var row := AliasQuarters(alias, SeriesOf(setup, alias));
    assert row in RowsOf(setup);
    k :| 0 <= k < |RowsOf(setup)| && RowsOf(setup)[k] == row;
  }

  lemma AliasOfRow(setup: Setup, k: nat)
    requires k < |RowsOf(setup)|
    ensures RowsOf(setup)[k].values == SeriesOf(setup, RowsOf(setup)[k].alias) != []
  {
    RowsExactly(setup);
    assert RowsOf(setup)[k] in RowsOf(setup);
  }

  lemma NothingEndsLater(setup: Setup, alias: int)
    requires RowsOf(setup) != []
    ensures EndsBy(SeriesOf(setup, alias), Newest(RowsOf(setup)))
  {
    if SeriesOf(setup, alias) != [] {
      var k := RowOfAlias(setup, alias);
      SeriesAscendsOf(setup, alias);
      NewestIsLast(RowsOf(setup));
      RowEndsBy(RowsOf(setup)[k], Newest(RowsOf(setup)));
    }
  }

  lemma RowEndsBy(row: AliasQuarters, end: Date)
    requires row.values != [] && QuartersAscend(row.values) && LastEnd(row) <= end
    ensures EndsBy(row.values, end)
  {
    forall q | q in row.values ensures q.end <= end {
      LastIsLatest(row, q);
    }
  }

  lemma NewestEndIs(setup: Setup)
    requires RowsOf(setup) != []
    ensures NewestEnd(setup, Newest(RowsOf(setup)))
  {
    var newest := Newest(RowsOf(setup));
    NewestIsLast(RowsOf(setup));
    var j: nat :| j < |RowsOf(setup)| && LastEnd(RowsOf(setup)[j]) == newest;
    AliasOfRow(setup, j);
    var values := RowsOf(setup)[j].values;
    assert Observes(setup, RowsOf(setup)[j].alias, newest, values[|values| - 1]);
    forall alias ensures EndsBy(SeriesOf(setup, alias), newest) {
      NothingEndsLater(setup, alias);
    }
  }

  ghost predicate AliasesAscend(rows: seq<AliasQuarters>) {
    forall i, k :: 0 <= i < k < |rows| ==> rows[i].alias < rows[k].alias
  }

  lemma {:induction false} RowsAreOf(eligible: seq<Fact>, aliases: seq<int>, concept: nat, kind: Kind, ev: Evidence)
    ensures forall row :: row in RowsFor(eligible, aliases, concept, kind, ev) ==> row.alias in aliases
  {
    if aliases != [] {
      var front, last := aliases[..|aliases| - 1], aliases[|aliases| - 1];
      RowsAreOf(eligible, front, concept, kind, ev);
      assert aliases == front + [last];
    }
  }

  lemma AscendingThenLater(rows: seq<AliasQuarters>, alias: int, values: seq<Quarter>)
    requires AliasesAscend(rows) && forall row :: row in rows ==> row.alias < alias
    ensures AliasesAscend(rows + RowOf(alias, values))
  {
    assert forall i :: 0 <= i < |rows| ==> rows[i] in rows;
  }

  lemma {:induction false} RowsAscend(eligible: seq<Fact>, aliases: seq<int>, concept: nat, kind: Kind, ev: Evidence)
    requires Ascending(aliases)
    ensures AliasesAscend(RowsFor(eligible, aliases, concept, kind, ev))
  {
    if aliases != [] {
      var front, last := aliases[..|aliases| - 1], aliases[|aliases| - 1];
      RowsAscend(eligible, front, concept, kind, ev);
      RowsAreOf(eligible, front, concept, kind, ev);
      assert forall x :: x in front ==> x < last;
      AscendingThenLater(RowsFor(eligible, front, concept, kind, ev), last, Series(eligible, last, concept, kind, ev));
    }
  }

  /** The rank of one alias at the newest date is that of its controlling filing. */
  lemma RankOfAlias(setup: Setup, k: nat, end: Date, f: Fact)
    requires k < |RowsOf(setup)| && Controls(setup, RowsOf(setup)[k].alias, end, f)
    ensures AnchorRank(RowsOf(setup)[k], end, EvidenceOf(setup)) == Some(RankOf(f, setup.priority))
  {
    var q :| Observes(setup, RowsOf(setup)[k].alias, end, q) && Controlling(q, EvidenceOf(setup)) == Some(f);
    AliasOfRow(setup, k);
    SeriesAscendsOf(setup, RowsOf(setup)[k].alias);
    LastAtIs(RowsOf(setup)[k].values, end, q);
  }

  lemma ObservationOfRank(setup: Setup, k: nat, end: Date) returns (q: Quarter, f: Fact)
    requires k < |RowsOf(setup)| && AnchorRank(RowsOf(setup)[k], end, EvidenceOf(setup)).Some?
    ensures Observes(setup, RowsOf(setup)[k].alias, end, q) && Controlling(q, EvidenceOf(setup)) == Some(f)
  {
    AliasOfRow(setup, k);
    SeriesAscendsOf(setup, RowsOf(setup)[k].alias);
    q := LastAt(RowsOf(setup)[k].values, end).value;
    LastAtIs(RowsOf(setup)[k].values, end, q);
    f := Controlling(q, EvidenceOf(setup)).value;
  }

  lemma AnchorOutranks(rows: seq<AliasQuarters>, end: Date, ev: Evidence, a: nat, k: nat, mine: Rank, other: Rank)
    requires IsAnchor(rows, end, ev, a) && k < |rows|
    requires AnchorRank(rows[a], end, ev) == Some(mine) && AnchorRank(rows[k], end, ev) == Some(other)
    ensures !Above(other, mine) && (k < a ==> Above(mine, other))
  {
  }

  lemma AliasesAscendIn(setup: Setup)
    ensures AliasesAscend(RowsOf(setup))
  {
    RowsAscend(EligibleOf(setup), SortedSet(Grouped(EligibleOf(setup), AliasOf).Keys), setup.concept, setup.kind,
      EvidenceOf(setup));
  }

  lemma OutrankedWins(setup: Setup, rows: seq<AliasQuarters>, a: nat, k: nat, f: Fact, g: Fact)
    requires a < |rows| && k < |rows| && AliasesAscend(rows)
    requires !Above(RankOf(g, setup.priority), RankOf(f, setup.priority))
    requires k < a ==> Above(RankOf(f, setup.priority), RankOf(g, setup.priority))
    ensures Wins(setup, rows[a].alias, f, rows[k].alias, g)
  {
    RankComparesFields(f, g, setup.priority);
    RankComparesFields(g, f, setup.priority);
  }

  lemma AnchorBeats(setup: Setup, a: nat, end: Date, f: Fact, other: int, g: Fact)
    requires IsAnchor(RowsOf(setup), end, EvidenceOf(setup), a)
    requires Controls(setup, RowsOf(setup)[a].alias, end, f) && Controls(setup, other, end, g)
    ensures Wins(setup, RowsOf(setup)[a].alias, f, other, g)
  {
    var k := RowOfAlias(setup, other);
    RankOfAlias(setup, a, end, f);
    RankOfAlias(setup, k, end, g);
    AnchorOutranks(RowsOf(setup), end, EvidenceOf(setup), a, k, RankOf(f, setup.priority), RankOf(g, setup.priority));
    AliasesAscendIn(setup);
    OutrankedWins(setup, RowsOf(setup), a, k, f, g);
  }

  lemma AnchorIs(setup: Setup, end: Date, a: nat)
    requires IsAnchor(RowsOf(setup), end, EvidenceOf(setup), a)
    ensures Anchors(setup, RowsOf(setup)[a].alias, end)
  {
    var q, f := ObservationOfRank(setup, a, end);
    assert Controls(setup, RowsOf(setup)[a].alias, end, f);
    forall other, g | Controls(setup, other, end, g) ensures Wins(setup, RowsOf(setup)[a].alias, f, other, g) {
      AnchorBeats(setup, a, end, f, other, g);
    }
  }

  /** What each outcome says of the filed facts. */
  ghost predicate SaysOfFacts(setup: Setup, outcome: Outcome) {
    match outcome
    case Absent => forall f :: !Considered(setup, f)
    case Withheld(NoReadableFiling) => false
    case Withheld(NoEligibleQuarter) =>
      (exists f :: Considered(setup, f)) && forall alias :: CandidatesOf(setup, alias) == []
    case Withheld(IncompleteTail) =>
      exists end, alias :: NewestEnd(setup, end) && Anchors(setup, alias, end) && !EndsInFullYear(setup, alias)
    case Available(alias, window, value) =>
      && NewestEnd(setup, value.end) && Anchors(setup, alias, value.end)
      && EndsInFullYear(setup, alias) && window == LastFour(SeriesOf(setup, alias))
      && Summarizes(setup.kind, window, value)
      && forall q :: q in window ==> FromFacts(q, CurrentOf(setup, alias), setup.concept, setup.kind)
  }

  function LastFour(values: seq<Quarter>): seq<Quarter> {
    if |values| >= 4 then values[|values| - 4..] else values
  }

  ghost predicate EndsInFullYear(setup: Setup, alias: int) {
    FullYear(LastFour(SeriesOf(setup, alias)))
  }

  lemma NoRowsNoCandidates(setup: Setup)
    requires RowsOf(setup) == []
    ensures forall alias :: CandidatesOf(setup, alias) == []
  {
    forall alias ensures CandidatesOf(setup, alias) == [] {
      SeriesKeepsEnds(setup, alias);
      SomethingKept(CandidatesOf(setup, alias), SeriesOf(setup, alias));
      if SeriesOf(setup, alias) != [] {
        var k := RowOfAlias(setup, alias);
      }
    }
  }

  /** What the tail of the anchor's row decides. */
  ghost predicate TailDecides(row: AliasQuarters, kind: Kind, outcome: Outcome) {
    if FullYear(LastFour(row.values)) then
      && TotalDays(LastFour(row.values)) != 0
      && outcome == Available(row.alias, LastFour(row.values), TtmValue(kind, LastFour(row.values)))
    else outcome == Withheld(IncompleteTail)
  }

  lemma DecideByTail(rows: seq<AliasQuarters>, kind: Kind, ev: Evidence, a: nat)
    requires Usable(rows) && rows != [] && AnchorOf(rows, Newest(rows), ev) == Some(a)
    requires QuartersAscend(rows[a].values) && rows[a].values != [] && LastEnd(rows[a]) == Newest(rows)
    ensures TailDecides(rows[a], kind, Decide(rows, kind, ev))
  {
    var values := rows[a].values;
    TailByFields(values, Newest(rows));
    if FullYear(LastFour(values)) {
      TailHasDays(values, Newest(rows));
    }
  }

  /** The outcome when there are rows, with its anchor and tail spelt out. */
  lemma DecisionOf(setup: Setup, a: nat, newest: Date)
    requires RowsOf(setup) != [] && EligibleOf(setup) != [] && newest == Newest(RowsOf(setup))
    requires AnchorOf(RowsOf(setup), newest, EvidenceOf(setup)) == Some(a)
    ensures TailDecides(RowsOf(setup)[a], setup.kind, TtmOutcome(setup))
  {
    NewestEndIs(setup);
    EndsAtNewest(setup, a, newest);
    AliasOfRow(setup, a);
    SeriesAscendsOf(setup, RowsOf(setup)[a].alias);
    DecideByTail(RowsOf(setup), setup.kind, EvidenceOf(setup), a);
  }

  lemma LastFourAreKept(values: seq<Quarter>, q: Quarter)
    requires q in LastFour(values)
    ensures q in values
  {
  }

  lemma KeptIsFromFacts(setup: Setup, alias: int, q: Quarter)
    requires q in SeriesOf(setup, alias)
    ensures FromFacts(q, CurrentOf(setup, alias), setup.concept, setup.kind)
  {
    SeriesKeepsEnds(setup, alias);
    KeptIsCandidate(CandidatesOf(setup, alias), SeriesOf(setup, alias), q);
    CandidateIsFromFacts(CurrentOf(setup, alias), setup.concept, setup.kind, q);
  }

  lemma WindowIsFromFacts(setup: Setup, alias: int)
    ensures forall q :: q in LastFour(SeriesOf(setup, alias)) ==>
      FromFacts(q, CurrentOf(setup, alias), setup.concept, setup.kind)
  {
    forall q | q in LastFour(SeriesOf(setup, alias))
      ensures FromFacts(q, CurrentOf(setup, alias), setup.concept, setup.kind)
    {
      LastFourAreKept(SeriesOf(setup, alias), q);
      KeptIsFromFacts(setup, alias, q);
    }
  }

  lemma DecidedFromFacts(setup: Setup)
    requires RowsOf(setup) != [] && EligibleOf(setup) != []
    ensures SaysOfFacts(setup, TtmOutcome(setup))
  {
    var ev, rows, newest := EvidenceOf(setup), RowsOf(setup), Newest(RowsOf(setup));
    NewestEndIs(setup);
    SomeRowAnchors(setup, SortedSet(Grouped(EligibleOf(setup), AliasOf).Keys), rows);
    var a := AnchorOf(rows, newest, ev).value;
    AnchorIs(setup, newest, a);
    AliasOfRow(setup, a);
    DecisionOf(setup, a, newest);
    EndsAtNewest(setup, a, newest);
    if FullYear(LastFour(rows[a].values)) {
      AvailableSays(setup, rows[a].alias, newest);
    }
  }

  lemma AvailableSays(setup: Setup, alias: int, newest: Date)
    requires NewestEnd(setup, newest) && Anchors(setup, alias, newest) && EndsInFullYear(setup, alias)
    requires SeriesOf(setup, alias)[|SeriesOf(setup, alias)| - 1].end == newest
    requires TotalDays(LastFour(SeriesOf(setup, alias))) != 0
    ensures var window := LastFour(SeriesOf(setup, alias));
      SaysOfFacts(setup, Available(alias, window, TtmValue(setup.kind, window)))
  {
    ValueSummarizes(setup.kind, LastFour(SeriesOf(setup, alias)));
    WindowIsFromFacts(setup, alias);
  }

  lemma EndsAtNewest(setup: Setup, a: nat, newest: Date)
    requires IsAnchor(RowsOf(setup), newest, EvidenceOf(setup), a) && NewestEnd(setup, newest)
    ensures RowsOf(setup)[a].values != [] && LastEnd(RowsOf(setup)[a]) == newest
  {
    AliasOfRow(setup, a);
    var q, f := ObservationOfRank(setup, a, newest);
    SeriesAscendsOf(setup, RowsOf(setup)[a].alias);
    LastIsLatest(RowsOf(setup)[a], q);
    assert RowsOf(setup)[a].values[|RowsOf(setup)[a].values| - 1] in SeriesOf(setup, RowsOf(setup)[a].alias);
  }

  /** Every outcome of a request says what the filed facts make it, and with what
      amounts, dates, lineage and availability. */
  lemma OutcomeSaysOfFacts(setup: Setup)
    ensures SaysOfFacts(setup, TtmOutcome(setup))
  {
    EligibleIsConsidered(setup);
    if EligibleOf(setup) == [] {
      assert forall f :: f !in EligibleOf(setup);
    } else {
      assert EligibleOf(setup)[0] in EligibleOf(setup);
      if RowsOf(setup) == [] {
        NoRowsNoCandidates(setup);
      } else {
        DecidedFromFacts(setup);
      }
    }
  }

  lemma CandidateEndsBy(setup: Setup, alias: int, end: Date, q: Quarter)
    requires NewestEnd(setup, end) && q in CandidatesOf(setup, alias)
    ensures q.end <= end
  {
    SeriesKeepsEnds(setup, alias);
    CandidatesEndBy(CandidatesOf(setup, alias), SeriesOf(setup, alias), end, q);
  }

  /** No quarter that an alias's current facts file ends after a trailing value. */
  lemma NothingLaterIsFiled(setup: Setup, alias: int, f: Fact, q: Quarter)
    requires TtmOutcome(setup).Available? && f in CurrentOf(setup, alias) && Filed(q, f)
    ensures q.end <= TtmOutcome(setup).value.end
  {
    CurrentByFields(setup, alias);
    FiledIsCandidate(CurrentOf(setup, alias), setup.concept, setup.kind, f, q);
    var end := TtmOutcome(setup).value.end;
    assert NewestEnd(setup, end) by { OutcomeSaysOfFacts(setup); }
    CandidateEndsBy(setup, alias, end, q);
  }
}
