/** Every quarter observation one source alias supplies (sec_fundamentals.py):
    directly reported quarters and differences of year-to-date facts. */
module QuarterCandidates {
  import opened Wrappers
  import opened Sorting
  import opened Grouping
  import opened VintageSelection
  import opened QuarterSeries

  // ---------------------------------------------------------------------
  // Quarter candidates of one alias
  // ---------------------------------------------------------------------

  function EndOf(q: Quarter): Date { q.end }

  function LaneOf(f: Fact): (nat, nat) { (f.alias, f.unit) }

  function ByEnd(f: Fact, g: Fact): bool { f.end <= g.end }

  predicate Measurable(f: Fact, concept: nat) {
    f.concept == concept && f.isDuration && f.start.Some?
  }

  function Durations(selected: seq<Fact>, concept: nat): seq<Fact> {
    if selected == [] then []
    else
      var rest := Durations(selected[..|selected| - 1], concept);
      var f := selected[|selected| - 1];
      if Measurable(f, concept) then rest + [f] else rest
  }

  function Directs(durations: seq<Fact>): seq<Quarter> {
    if durations == [] then []
    else
      var rest := Directs(durations[..|durations| - 1]);
      var f := durations[|durations| - 1];
      if QuarterLength(Reported(f).Days()) then rest + [Reported(f)] else rest
  }

  function Listed(q: Option<Quarter>): seq<Quarter> {
    if q.Some? then [q.value] else []
  }

  /** What the zip loop does with one pair of neighbours. */
  function DiffOf(kind: Kind): (Fact, Fact) -> Option<Quarter> {
    (previous, current) => Difference(kind, previous, current)
  }

  /** Neighbours of the chain, keeping the accepted differences. */
  function ChainDifferences(diff: (Fact, Fact) -> Option<Quarter>, chain: seq<Fact>): seq<Quarter> {
    if |chain| < 2 then []
    else ChainDifferences(diff, chain[..|chain| - 1]) + Listed(diff(chain[|chain| - 2], chain[|chain| - 1]))
  }

  function Chain(lane: seq<Fact>, start: Date): seq<Fact> {
    Sort(Filter(lane, Begins, start), ByEnd)
  }

  function LaneDifferences(diff: (Fact, Fact) -> Option<Quarter>, lane: seq<Fact>, starts: seq<Date>): seq<Quarter> {
    if starts == [] then []
    else
      LaneDifferences(diff, lane, starts[..|starts| - 1])
      + ChainDifferences(diff, Chain(lane, starts[|starts| - 1]))
  }

  function Differences(diff: (Fact, Fact) -> Option<Quarter>, durations: seq<Fact>,
                       lanes: seq<(nat, nat)>): seq<Quarter> {
    if lanes == [] then []
    else
      var lane := Filter(durations, LaneOf, lanes[|lanes| - 1]);
      Differences(diff, durations, lanes[..|lanes| - 1]) + LaneDifferences(diff, lane, Keys(lane, Begins))
  }

  function AllCandidates(selected: seq<Fact>, concept: nat, kind: Kind): seq<Quarter> {
    var durations := Durations(selected, concept);
    Directs(durations) + (if kind == Neither then [] else Differences(DiffOf(kind), durations, Keys(durations, LaneOf)))
  }

  function AppendListed(groups: map<Date, seq<Quarter>>, q: Option<Quarter>): map<Date, seq<Quarter>> {
    if q.Some? then Append(groups, q.value.end, q.value) else groups
  }

  lemma ListedAppend(candidates: map<Date, seq<Quarter>>, before: seq<Quarter>, next: Option<Quarter>)
    ensures AppendAll(candidates, before + Listed(next), EndOf) ==
      AppendListed(AppendAll(candidates, before, EndOf), next)
  {
    if next.Some? {
      assert (before + [next.value])[..|before|] == before;
    } else {
      assert before + [] == before;
    }
  }

  lemma NextDifference(diff: (Fact, Fact) -> Option<Quarter>, chain: seq<Fact>, i: nat, candidates: map<Date,
                       seq<Quarter>>)
    requires 1 <= i < |chain|
    ensures AppendAll(candidates, ChainDifferences(diff, chain[..i + 1]), EndOf) ==
      AppendListed(AppendAll(candidates, ChainDifferences(diff, chain[..i]), EndOf), diff(chain[i - 1], chain[i]))
  {
    assert chain[..i + 1][..i] == chain[..i];
    ListedAppend(candidates, ChainDifferences(diff, chain[..i]), diff(chain[i - 1], chain[i]));
  }

  /** The zip loop over one same-start chain. */
  method AddChain(diff: (Fact, Fact) -> Option<Quarter>, chain: seq<Fact>, candidates: map<Date, seq<Quarter>>)
    returns (more: map<Date, seq<Quarter>>)
    ensures more == AppendAll(candidates, ChainDifferences(diff, chain), EndOf)
  {
    more := candidates;
    if chain == [] {
      return;
    }
    var i := 1;
    while i < |chain|
      invariant 1 <= i <= |chain|
      invariant more == AppendAll(candidates, ChainDifferences(diff, chain[..i]), EndOf)
    {
      NextDifference(diff, chain, i, candidates);
      more := AppendListed(more, diff(chain[i - 1], chain[i]));
      i := i + 1;
    }
    assert chain[..|chain|] == chain;
  }

  lemma NextStart(diff: (Fact, Fact) -> Option<Quarter>, lane: seq<Fact>, starts: seq<Date>, i: nat,
                  candidates: map<Date, seq<Quarter>>)
    requires i < |starts|
    ensures AppendAll(candidates, LaneDifferences(diff, lane, starts[..i + 1]), EndOf) ==
      AppendAll(AppendAll(candidates, LaneDifferences(diff, lane, starts[..i]), EndOf),
                ChainDifferences(diff, Chain(lane, starts[i])), EndOf)
  {
    assert starts[..i + 1][..i] == starts[..i];
    AppendAllConcat(candidates, LaneDifferences(diff, lane, starts[..i]),
      ChainDifferences(diff, Chain(lane, starts[i])), EndOf);
  }

  method AddLane(diff: (Fact, Fact) -> Option<Quarter>, lane: seq<Fact>, candidates: map<Date, seq<Quarter>>)
    returns (more: map<Date, seq<Quarter>>)
    ensures more == AppendAll(candidates, LaneDifferences(diff, lane, Keys(lane, Begins)), EndOf)
  {
    var starts, byStart := GroupBy(lane, Begins);
    more := candidates;
    var i := 0;
    while i < |starts|
      invariant 0 <= i <= |starts|
      invariant more == AppendAll(candidates, LaneDifferences(diff, lane, starts[..i]), EndOf)
    {
      NextStart(diff, lane, starts, i, candidates);
      GroupAt(lane, Begins, starts, byStart, i);
      more := AddChain(diff, Sort(byStart[starts[i]], ByEnd), more);
      i := i + 1;
    }
    assert starts[..|starts|] == starts;
  }

  lemma NextLane(diff: (Fact, Fact) -> Option<Quarter>, durations: seq<Fact>, lanes: seq<(nat, nat)>, i: nat,
                 candidates: map<Date, seq<Quarter>>)
    requires i < |lanes|
    ensures var lane := Filter(durations, LaneOf, lanes[i]);
      AppendAll(candidates, Differences(diff, durations, lanes[..i + 1]), EndOf) ==
      AppendAll(AppendAll(candidates, Differences(diff, durations, lanes[..i]), EndOf),
                LaneDifferences(diff, lane, Keys(lane, Begins)), EndOf)
  {
    assert lanes[..i + 1][..i] == lanes[..i];
    var lane := Filter(durations, LaneOf, lanes[i]);
    AppendAllConcat(candidates, Differences(diff, durations, lanes[..i]),
      LaneDifferences(diff, lane, Keys(lane, Begins)), EndOf);
  }

  method AddLanes(diff: (Fact, Fact) -> Option<Quarter>, durations: seq<Fact>, candidates: map<Date, seq<Quarter>>)
    returns (more: map<Date, seq<Quarter>>)
    ensures more == AppendAll(candidates, Differences(diff, durations, Keys(durations, LaneOf)), EndOf)
  {
    var lanes, byLane := GroupBy(durations, LaneOf);
    more := candidates;
    var i := 0;
    while i < |lanes|
      invariant 0 <= i <= |lanes|
      invariant more == AppendAll(candidates, Differences(diff, durations, lanes[..i]), EndOf)
    {
      NextLane(diff, durations, lanes, i, candidates);
      GroupAt(durations, LaneOf, lanes, byLane, i);
      more := AddLane(diff, byLane[lanes[i]], more);
      i := i + 1;
    }
    assert lanes[..|lanes|] == lanes;
  }

  lemma NextDuration(selected: seq<Fact>, concept: nat, i: nat)
    requires i < |selected|
    ensures Durations(selected[..i + 1], concept) ==
      Durations(selected[..i], concept) + (if Measurable(selected[i], concept) then [selected[i]] else [])
  {
    assert selected[..i + 1][..i] == selected[..i];
  }

  /** `candidates` after one more duration fact. */
  function Noted(candidates: map<Date, seq<Quarter>>, f: Fact): map<Date, seq<Quarter>> {
    if QuarterLength(Reported(f).Days()) then Append(candidates, f.end, Reported(f)) else candidates
  }

  lemma NextReported(durations: seq<Fact>, f: Fact)
    ensures Grouped(Directs(durations + [f]), EndOf) == Noted(Grouped(Directs(durations), EndOf), f)
  {
    assert (durations + [f])[..|durations|] == durations;
    if QuarterLength(Reported(f).Days()) {
      assert Directs(durations + [f]) == Directs(durations) + [Reported(f)];
      GroupedAppend(Directs(durations), EndOf, Reported(f));
    } else {
      assert Directs(durations + [f]) == Directs(durations);
    }
  }

  /** The facts loop: reported quarters, and the durations to difference later. */
  method ReportedQuarters(selected: seq<Fact>, concept: nat)
    returns (candidates: map<Date, seq<Quarter>>, durations: seq<Fact>)
    ensures durations == Durations(selected, concept)
    ensures candidates == Grouped(Directs(durations), EndOf)
  {
    candidates, durations := map[], [];
    var i := 0;
    while i < |selected|
      invariant 0 <= i <= |selected|
      invariant durations == Durations(selected[..i], concept)
      invariant candidates == Grouped(Directs(durations), EndOf)
    {
      NextDuration(selected, concept, i);
      var fact := selected[i];
      NextReported(durations, fact);
      if fact.concept == concept && fact.isDuration && fact.start.Some? {
        var value := Reported(fact);
        if MIN_QUARTER_DAYS <= value.Days() <= MAX_QUARTER_DAYS {
          candidates := Append(candidates, fact.end, value);
        }
        durations := durations + [fact];
      }
      i := i + 1;
    }
    assert selected[..|selected|] == selected;
  }

  /** `_v3_alias_quarter_candidates`: every observation, by quarter end. */
  method AliasQuarterCandidates(selected: seq<Fact>, concept: nat, kind: Kind)
    returns (candidates: map<Date, seq<Quarter>>)
    ensures candidates == Grouped(AllCandidates(selected, concept, kind), EndOf)
  {
    var durations;
    candidates, durations := ReportedQuarters(selected, concept);
    if kind == Neither {
      assert Directs(durations) + [] == Directs(durations);
      return;
    }
    candidates := AddLanes(DiffOf(kind), durations, candidates);
    GroupedAppendAll(Directs(durations), Differences(DiffOf(kind), durations, Keys(durations, LaneOf)), EndOf);
  }

  // ---------------------------------------------------------------------
  // Where a candidate comes from
  // ---------------------------------------------------------------------

  /** `q` is the reported quarter of `f`. */
  predicate ReportedBy(q: Quarter, f: Fact) {
    f.start.Some? && q == Reported(f) && QuarterLength(q.Days())
  }

  /** `q` is the difference of two year-to-date facts of one alias, unit and start. */
  predicate DifferenceOf(diff: (Fact, Fact) -> Option<Quarter>, q: Quarter, f: Fact, g: Fact) {
    LaneOf(f) == LaneOf(g) && Begins(f) == Begins(g) && diff(f, g) == Some(q)
  }

  lemma {:induction false} DurationMembers(selected: seq<Fact>, concept: nat)
    ensures forall f :: f in Durations(selected, concept) <==> f in selected && Measurable(f, concept)
  {
    if selected != [] {
      DurationMembers(selected[..|selected| - 1], concept);
      assert selected == selected[..|selected| - 1] + [selected[|selected| - 1]];
    }
  }

  lemma {:induction false} DirectMembers(durations: seq<Fact>, q: Quarter)
    requires q in Directs(durations)
    ensures exists f :: f in durations && q == Reported(f) && QuarterLength(q.Days())
  {
    var front := durations[..|durations| - 1];
    assert durations == front + [durations[|durations| - 1]];
    if q in Directs(front) {
      DirectMembers(front, q);
    }
  }

  lemma {:induction false} ChainMembers(diff: (Fact, Fact) -> Option<Quarter>, chain: seq<Fact>, q: Quarter)
    requires q in ChainDifferences(diff, chain)
    ensures exists f, g :: f in chain && g in chain && diff(f, g) == Some(q)
  {
    var front := chain[..|chain| - 1];
    if q in ChainDifferences(diff, front) {
      ChainMembers(diff, front, q);
      var f, g :| f in front && g in front && diff(f, g) == Some(q);
      assert f in chain && g in chain;
    } else {
      assert diff(chain[|chain| - 2], chain[|chain| - 1]) == Some(q);
    }
  }

  lemma ChainIsSameStart(lane: seq<Fact>, start: Date, f: Fact)
    requires f in Chain(lane, start)
    ensures f in lane && Begins(f) == start
  {
    SortKeepsElements(Filter(lane, Begins, start), ByEnd);
    SameMembers(Chain(lane, start), Filter(lane, Begins, start));
    FilterMembers(lane, Begins, start);
  }

  lemma {:induction false} LaneMembers(diff: (Fact, Fact) -> Option<Quarter>, lane: seq<Fact>, starts: seq<Date>,
                                       q: Quarter)
    requires q in LaneDifferences(diff, lane, starts)
    ensures exists f, g :: f in lane && g in lane && Begins(f) == Begins(g) && diff(f, g) == Some(q)
  {
    if q in LaneDifferences(diff, lane, starts[..|starts| - 1]) {
      LaneMembers(diff, lane, starts[..|starts| - 1], q);
    } else {
      var chain := Chain(lane, starts[|starts| - 1]);
      ChainMembers(diff, chain, q);
      var f, g :| f in chain && g in chain && diff(f, g) == Some(q);
      ChainIsSameStart(lane, starts[|starts| - 1], f);
      ChainIsSameStart(lane, starts[|starts| - 1], g);
    }
  }

  lemma {:induction false} DifferenceMembers(diff: (Fact, Fact) -> Option<Quarter>, durations: seq<Fact>,
      lanes: seq<(nat, nat)>, q: Quarter)
    requires q in Differences(diff, durations, lanes)
    ensures exists f, g :: f in durations && g in durations && DifferenceOf(diff, q, f, g)
  {
    if q in Differences(diff, durations, lanes[..|lanes| - 1]) {
      DifferenceMembers(diff, durations, lanes[..|lanes| - 1], q);
    } else {
      var lane := Filter(durations, LaneOf, lanes[|lanes| - 1]);
      LaneMembers(diff, lane, Keys(lane, Begins), q);
      FilterMembers(durations, LaneOf, lanes[|lanes| - 1]);
      var f, g :| f in lane && g in lane && Begins(f) == Begins(g) && diff(f, g) == Some(q);
      assert DifferenceOf(diff, q, f, g);
    }
  }

  /** Every candidate is a reported quarter, or the difference of two
      year-to-date facts of one alias, unit and start. */
  lemma CandidateOrigins(selected: seq<Fact>, concept: nat, kind: Kind, q: Quarter)
    requires q in AllCandidates(selected, concept, kind)
    ensures (exists f :: f in selected && ReportedBy(q, f))
      || (exists f, g :: f in selected && g in selected && DifferenceOf(DiffOf(kind), q, f, g))
  {
    var durations := Durations(selected, concept);
    DurationMembers(selected, concept);
    if q in Directs(durations) {
      DirectMembers(durations, q);
      var f :| f in durations && q == Reported(f) && QuarterLength(q.Days());
      assert ReportedBy(q, f);
    } else {
      DifferenceMembers(DiffOf(kind), durations, Keys(durations, LaneOf), q);
      var f, g :| f in durations && g in durations && DifferenceOf(DiffOf(kind), q, f, g);
      assert f in selected && g in selected;
    }
  }

  /** A candidate of one alias cites that alias, facts it was built from, and a
      period of quarter length. */
  predicate Cites(q: Quarter, selected: seq<Fact>, alias: int) {
    && q.aliases == [alias]
    && QuarterLength(q.Days())
    && q.sources != []
    && forall i :: 0 <= i < |q.sources| ==> exists k :: 0 <= k < |selected| && selected[k].pk == q.sources[i]
  }

  lemma CandidateCites(selected: seq<Fact>, concept: nat, kind: Kind, alias: int, q: Quarter)
    requires q in AllCandidates(selected, concept, kind)
    requires forall f :: f in selected ==> f.alias == alias
    ensures Cites(q, selected, alias)
  {
    CandidateOrigins(selected, concept, kind, q);
    if f :| f in selected && ReportedBy(q, f) {
      var k :| 0 <= k < |selected| && selected[k] == f;
    } else {
      var f, g :| f in selected && g in selected && DifferenceOf(DiffOf(kind), q, f, g);
      assert Difference(kind, f, g) == Some(q);
      var k :| 0 <= k < |selected| && selected[k] == f;
      var m :| 0 <= m < |selected| && selected[m] == g;
      assert q.sources == [f.pk, g.pk];
    }
  }
}
