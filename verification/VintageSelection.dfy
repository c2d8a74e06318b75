/** Which vintage of a reported fact is current (sec_fundamentals.py): the
    comparator `_fact_is_newer`, the rank it approximates, and the single-pass
    selection built on it.

    Strings that are only compared (accessions, concepts, aliases, units) are
    numbers in their alphabetical order; dates are day numbers. */
module VintageSelection {
  import opened Wrappers
  import opened Sorting

  type Date = int
  type Instant = int

  datatype Fact = Fact(
    pk: nat,
    sec: bool,
    concept: nat,
    alias: nat,
    period: nat,
    isDuration: bool,
    start: Option<Date>,
    end: Date,
    unit: nat,
    accession: nat,
    revision: nat,
    availableAt: Instant,
    value: real)

  /** The reviewed (concept, alias) priorities; a lower index is preferred. */
  type Priorities = map<(nat, nat), nat>

  predicate InScope(f: Fact, priority: Priorities) {
    f.sec && (f.concept, f.alias) in priority
  }

  // ---------------------------------------------------------------------
  // The comparator and the rank
  // ---------------------------------------------------------------------

  datatype Rank = Rank(availableAt: Instant, revision: nat, preference: int, accession: nat)

  function RankOf(f: Fact, priority: Priorities): Rank {
    var index: int := if (f.concept, f.alias) in priority then priority[(f.concept, f.alias)] else 10000;
    Rank(f.availableAt, f.revision, -index, f.accession)
  }

  /** Tuple comparison `a > b`. */
  predicate Above(a: Rank, b: Rank) {
    if a.availableAt != b.availableAt then a.availableAt > b.availableAt
    else if a.revision != b.revision then a.revision > b.revision
    else if a.preference != b.preference then a.preference > b.preference
    else a.accession > b.accession
  }

  predicate SameSeries(f: Fact, g: Fact) {
    f.alias == g.alias && f.period == g.period && f.accession == g.accession && f.unit == g.unit
  }

  /** `_fact_is_newer`. */
  predicate IsNewer(candidate: Fact, existing: Fact, priority: Priorities) {
    if SameSeries(candidate, existing) && candidate.revision != existing.revision
    then candidate.revision > existing.revision
    else Above(RankOf(candidate, priority), RankOf(existing, priority))
  }

  /** A later revision of the series that became available earlier. */
  predicate Inverted(f: Fact, g: Fact) {
    SameSeries(f, g) && f.revision < g.revision && g.availableAt < f.availableAt
  }

  ghost predicate RevisionsMonotone(facts: seq<Fact>) {
    forall f, g :: f in facts && g in facts ==> !Inverted(f, g)
  }

  ghost predicate ComparatorIsRank(facts: seq<Fact>, priority: Priorities) {
    forall f, g :: f in facts && g in facts ==>
      (IsNewer(f, g, priority) <==> Above(RankOf(f, priority), RankOf(g, priority)))
  }

  /** The comparator is the rank order exactly when availability never falls as
      revisions rise within a series. */
  lemma ComparatorIsRankExactly(facts: seq<Fact>, priority: Priorities)
    ensures ComparatorIsRank(facts, priority) <==> RevisionsMonotone(facts)
  {
    if !RevisionsMonotone(facts) {
      var f, g :| f in facts && g in facts && Inverted(f, g);
      assert IsNewer(g, f, priority) && !Above(RankOf(g, priority), RankOf(f, priority));
    } else {
      forall f, g | f in facts && g in facts
        ensures IsNewer(f, g, priority) <==> Above(RankOf(f, priority), RankOf(g, priority))
      {
        assert !Inverted(f, g) && !Inverted(g, f);
      }
    }
  }

  // ---------------------------------------------------------------------
  // The same, field by field
  // ---------------------------------------------------------------------

  /** The place of a fact's alias in the reviewed list; an unreviewed one is last. */
  function Place(f: Fact, priority: Priorities): nat {
    if (f.concept, f.alias) in priority then priority[(f.concept, f.alias)] else 10_000
  }

  /** f is at least as current as g: available later; or then of a later revision;
      or then of an alias reviewed before g's; or then of no smaller accession. */
  predicate AsCurrentAs(f: Fact, g: Fact, priority: Priorities) {
    || f.availableAt > g.availableAt
    || (f.availableAt == g.availableAt && f.revision > g.revision)
    || (f.availableAt == g.availableAt && f.revision == g.revision && Place(f, priority) < Place(g, priority))
    || (f.availableAt == g.availableAt && f.revision == g.revision && Place(f, priority) == Place(g, priority)
        && f.accession >= g.accession)
  }

  /** The rank compares availability, revision, alias place and accession, in this order. */
  lemma RankComparesFields(f: Fact, g: Fact, priority: Priorities)
    ensures Above(RankOf(g, priority), RankOf(f, priority)) <==> !AsCurrentAs(f, g, priority)
  {
  }

  /** Two revisions of one alias's fact of one period, accession and unit are
      compared by revision alone, and any other two facts by all the fields. */
  lemma ComparatorByFields(f: Fact, g: Fact, priority: Priorities)
    ensures IsNewer(f, g, priority) <==>
      if f.alias == g.alias && f.period == g.period && f.accession == g.accession && f.unit == g.unit
         && f.revision != g.revision
      then f.revision > g.revision else !AsCurrentAs(g, f, priority)
  {
    RankComparesFields(g, f, priority);
  }

  // ---------------------------------------------------------------------
  // The single pass
  // ---------------------------------------------------------------------

  datatype Key = Key(concept: nat, period: nat)

  function KeyOf(f: Fact): Key {
    Key(f.concept, f.period)
  }

  /** The dictionary after the facts so far. */
  function Selected(facts: seq<Fact>, priority: Priorities): map<Key, Fact> {
    if facts == [] then map[]
    else
      var before := Selected(facts[..|facts| - 1], priority);
      var f := facts[|facts| - 1];
      if !InScope(f, priority) then before
      else if KeyOf(f) !in before || IsNewer(f, before[KeyOf(f)], priority) then before[KeyOf(f) := f]
      else before
  }

  /** Its keys in insertion order. */
  function Inserted(facts: seq<Fact>, priority: Priorities): seq<Key> {
    if facts == [] then []
    else
      var before := Inserted(facts[..|facts| - 1], priority);
      var f := facts[|facts| - 1];
      if InScope(f, priority) && KeyOf(f) !in before then before + [KeyOf(f)] else before
  }

  lemma {:induction false} SelectedInOrder(facts: seq<Fact>, priority: Priorities)
    ensures forall k :: k in Selected(facts, priority) <==> k in Inserted(facts, priority)
    ensures Distinct(Inserted(facts, priority))
  {
    if facts != [] {
      SelectedInOrder(facts[..|facts| - 1], priority);
    }
  }

  lemma {:induction false} SelectedFrom(facts: seq<Fact>, priority: Priorities, k: Key)
    requires k in Selected(facts, priority)
    ensures var f := Selected(facts, priority)[k];
      f in facts && InScope(f, priority) && KeyOf(f) == k
  {
    var front := facts[..|facts| - 1];
    assert facts == front + [facts[|facts| - 1]];
    if k in Selected(front, priority) {
      SelectedFrom(front, priority, k);
    }
  }

  lemma {:induction false} SelectedFor(facts: seq<Fact>, priority: Priorities, f: Fact)
    requires f in facts && InScope(f, priority)
    ensures KeyOf(f) in Selected(facts, priority)
  {
    var front := facts[..|facts| - 1];
    assert facts == front + [facts[|facts| - 1]];
    if f in front {
      SelectedFor(front, priority, f);
    }
  }

  /** The selection covers exactly the keys of in-scope facts, each with one of them. */
  lemma SelectedKeys(facts: seq<Fact>, priority: Priorities)
    ensures forall k :: k in Selected(facts, priority) <==> k in Inserted(facts, priority)
    ensures forall k :: k in Selected(facts, priority) <==> exists f ::
      f in facts && InScope(f, priority) && KeyOf(f) == k
    ensures forall k :: k in Selected(facts, priority) ==>
      var f := Selected(facts, priority)[k];
      f in facts && InScope(f, priority) && KeyOf(f) == k
    ensures Distinct(Inserted(facts, priority))
  {
    SelectedInOrder(facts, priority);
    forall k | k in Selected(facts, priority)
      ensures var f := Selected(facts, priority)[k];
        f in facts && InScope(f, priority) && KeyOf(f) == k
    {
      SelectedFrom(facts, priority, k);
    }
    forall f | f in facts && InScope(f, priority)
      ensures KeyOf(f) in Selected(facts, priority)
    {
      SelectedFor(facts, priority, f);
    }
  }

  /** `f` is a rank maximum of its key. */
  ghost predicate Latest(facts: seq<Fact>, f: Fact, priority: Priorities) {
    && f in facts && InScope(f, priority)
    && forall g :: g in facts && InScope(g, priority) && KeyOf(g) == KeyOf(f) ==>
         !Above(RankOf(g, priority), RankOf(f, priority))
  }

  /** With monotone revisions the pass selects a rank maximum of every key. */
  lemma {:induction false} SelectedIsLatest(facts: seq<Fact>, priority: Priorities)
    requires RevisionsMonotone(facts)
    ensures forall k :: k in Selected(facts, priority) ==>
      KeyOf(Selected(facts, priority)[k]) == k && Latest(facts, Selected(facts, priority)[k], priority)
  {
    ComparatorIsRankExactly(facts, priority);
    if facts != [] {
      var front := facts[..|facts| - 1];
      var last := facts[|facts| - 1];
      assert facts == front + [last];
      SelectedIsLatest(front, priority);
      SelectedKeys(front, priority);
      var before := Selected(front, priority);
      var after := Selected(facts, priority);
      forall k | k in after
        ensures KeyOf(after[k]) == k && Latest(facts, after[k], priority)
      {
        forall g | g in facts && InScope(g, priority) && KeyOf(g) == k
          ensures !Above(RankOf(g, priority), RankOf(after[k], priority))
        {
          if k in before {
            assert before[k] in front && Latest(front, before[k], priority);
            assert KeyOf(last) == k && InScope(last, priority) ==>
              (IsNewer(last, before[k], priority) <==> Above(RankOf(last, priority), RankOf(before[k], priority)));
          }
          if g in front {
            assert k in before;
          }
        }
      }
    }
  }

  ghost predicate SameFacts(a: seq<Fact>, b: seq<Fact>) {
    forall f :: f in a <==> f in b
  }

  predicate Rivals(f: Fact, g: Fact, priority: Priorities) {
    InScope(f, priority) && InScope(g, priority) && KeyOf(f) == KeyOf(g)
  }

  /** No two distinct candidates of one key tie on every ranked field. */
  ghost predicate DistinctRanks(facts: seq<Fact>, priority: Priorities) {
    forall f, g :: f in facts && g in facts && Rivals(f, g, priority) && RankOf(f, priority) == RankOf(g, priority) ==>
      f == g
  }

  // ---------------------------------------------------------------------
  // When the input order does not matter
  // ---------------------------------------------------------------------

  /** `f` is newer than every rival. */
  ghost predicate Champion(facts: seq<Fact>, f: Fact, priority: Priorities) {
    && f in facts && InScope(f, priority)
    && forall g :: g in facts && g != f && Rivals(f, g, priority) ==> IsNewer(f, g, priority)
  }

  ghost predicate EveryKeyHasChampion(facts: seq<Fact>, priority: Priorities) {
    forall k :: k in Selected(facts, priority) ==> exists f :: Champion(facts, f, priority) && KeyOf(f) == k
  }

  /** A champion takes its key when it comes and keeps it. */
  lemma {:induction false} ChampionIsSelected(facts: seq<Fact>, f: Fact, priority: Priorities)
    requires Champion(facts, f, priority)
    ensures KeyOf(f) in Selected(facts, priority) && Selected(facts, priority)[KeyOf(f)] == f
  {
    var front, last := facts[..|facts| - 1], facts[|facts| - 1];
    assert facts == front + [last];
    if f in front {
      ChampionIsSelected(front, f, priority);
      assert last in facts;
    } else if KeyOf(f) in Selected(front, priority) {
      SelectedFrom(front, priority, KeyOf(f));
    }
  }

  function Copies(f: Fact, n: nat): seq<Fact> {
    if n == 0 then [] else Copies(f, n - 1) + [f]
  }

  /** Every copy of f can be moved to the front. */
  lemma {:induction false} Gather(facts: seq<Fact>, f: Fact) returns (n: nat, rest: seq<Fact>)
    ensures multiset(facts) == multiset(Copies(f, n)) + multiset(rest)
    ensures f !in rest && forall g :: g in facts && g != f ==> g in rest
  {
    if facts == [] {
      n, rest := 0, [];
    } else {
      var front, last := facts[..|facts| - 1], facts[|facts| - 1];
      assert facts == front + [last];
      n, rest := Gather(front, f);
      if last == f {
        n := n + 1;
        assert Copies(f, n) == Copies(f, n - 1) + [f];
      } else {
        rest := rest + [last];
      }
    }
  }

  lemma SelectedNext(before: seq<Fact>, f: Fact, priority: Priorities)
    ensures Selected(before + [f], priority) ==
      var selected := Selected(before, priority);
      if InScope(f, priority) && (KeyOf(f) !in selected || IsNewer(f, selected[KeyOf(f)], priority))
      then selected[KeyOf(f) := f] else selected
  {
    assert (before + [f])[..|before|] == before;
  }

  /** No number of copies takes a key from a fact it is not newer than. */
  lemma {:induction false} CopiesDoNotTake(g: Fact, f: Fact, n: nat, priority: Priorities)
    requires Rivals(f, g, priority) && !IsNewer(f, g, priority)
    ensures Selected([g] + Copies(f, n), priority) == map[KeyOf(g) := g]
  {
    if n == 0 {
      assert [g] + Copies(f, 0) == [] + [g];
      SelectedNext([], g, priority);
    } else {
      CopiesDoNotTake(g, f, n - 1, priority);
      assert [g] + Copies(f, n) == [g] + Copies(f, n - 1) + [f];
      SelectedNext([g] + Copies(f, n - 1), f, priority);
    }
  }

  /** Without f among the later facts, f does not come to hold a key. */
  lemma {:induction false} AbsentIsNotSelected(before: seq<Fact>, later: seq<Fact>, f: Fact, priority: Priorities)
    requires KeyOf(f) in Selected(before, priority) && Selected(before, priority)[KeyOf(f)] != f && f !in later
    ensures KeyOf(f) in Selected(before + later, priority) && Selected(before + later, priority)[KeyOf(f)] != f
  {
    if later == [] {
      assert before + later == before;
    } else {
      var front, last := later[..|later| - 1], later[|later| - 1];
      AbsentIsNotSelected(before, front, f, priority);
      assert before + later == before + front + [last];
      SelectedNext(before + front, last, priority);
    }
  }

  /** A fact that is not newer than some rival loses in some order. */
  lemma SomeOrderPasses(facts: seq<Fact>, f: Fact, g: Fact, priority: Priorities) returns (order: seq<Fact>)
    requires g in facts && g != f && Rivals(f, g, priority) && !IsNewer(f, g, priority)
    ensures multiset(order) == multiset(facts)
    ensures KeyOf(f) in Selected(order, priority) && Selected(order, priority)[KeyOf(f)] != f
  {
    var n, rest := Gather(facts, f);
    var i :| 0 <= i < |rest| && rest[i] == g;
    var later := rest[..i] + rest[i + 1..];
    order := [g] + Copies(f, n) + later;
    assert rest == rest[..i] + [g] + rest[i + 1..];
    assert multiset(rest) == multiset{g} + multiset(later);
    CopiesDoNotTake(g, f, n, priority);
    AbsentIsNotSelected([g] + Copies(f, n), later, f, priority);
  }

  /** Every order of the facts selects the same. */
  ghost predicate OneSelection(facts: seq<Fact>, priority: Priorities) {
    forall order :: multiset(order) == multiset(facts) ==> Selected(order, priority) == Selected(facts, priority)
  }

  lemma ChampionsGiveOneSelection(a: seq<Fact>, b: seq<Fact>, priority: Priorities)
    requires SameFacts(a, b) && EveryKeyHasChampion(a, priority)
    ensures Selected(a, priority) == Selected(b, priority)
  {
    SelectedKeysAgree(a, b, priority);
    forall k | k in Selected(a, priority) ensures Selected(a, priority)[k] == Selected(b, priority)[k] {
      var f :| Champion(a, f, priority) && KeyOf(f) == k;
      ChampionIsSelected(a, f, priority);
      ChampionIsSelected(b, f, priority);
    }
  }

  lemma OneSelectionIsChampion(facts: seq<Fact>, k: Key, priority: Priorities)
    requires OneSelection(facts, priority) && k in Selected(facts, priority)
    ensures Champion(facts, Selected(facts, priority)[k], priority) && KeyOf(Selected(facts, priority)[k]) == k
  {
    var f := Selected(facts, priority)[k];
    SelectedFrom(facts, priority, k);
    forall g | g in facts && g != f && Rivals(f, g, priority) ensures IsNewer(f, g, priority) {
      if !IsNewer(f, g, priority) {
        var order := SomeOrderPasses(facts, f, g, priority);
      }
    }
  }

  /** For any facts: every order selects the same exactly when every selected key
      has a fact that is newer than each of its rivals. */
  lemma SelectionIgnoresOrderExactly(facts: seq<Fact>, priority: Priorities)
    ensures OneSelection(facts, priority) <==> EveryKeyHasChampion(facts, priority)
  {
    if OneSelection(facts, priority) {
      forall k | k in Selected(facts, priority)
        ensures exists f :: Champion(facts, f, priority) && KeyOf(f) == k
      {
        OneSelectionIsChampion(facts, k, priority);
      }
    }
    if EveryKeyHasChampion(facts, priority) {
      forall order | multiset(order) == multiset(facts)
        ensures Selected(order, priority) == Selected(facts, priority)
      {
        SameMembers(facts, order);
        ChampionsGiveOneSelection(facts, order, priority);
      }
    }
  }

  /** Under the ledger's own condition, with distinct ranks, the rank maximum of
      each key is its champion. */
  lemma MonotoneHasChampions(facts: seq<Fact>, priority: Priorities)
    requires RevisionsMonotone(facts) && DistinctRanks(facts, priority)
    ensures EveryKeyHasChampion(facts, priority)
  {
    SelectedIsLatest(facts, priority);
    ComparatorIsRankExactly(facts, priority);
    forall k | k in Selected(facts, priority) ensures exists f :: Champion(facts, f, priority) && KeyOf(f) == k {
      LatestIsChampion(facts, Selected(facts, priority)[k], priority);
    }
  }

  lemma LatestIsChampion(facts: seq<Fact>, f: Fact, priority: Priorities)
    requires ComparatorIsRank(facts, priority) && DistinctRanks(facts, priority) && Latest(facts, f, priority)
    ensures Champion(facts, f, priority)
  {
    forall g | g in facts && g != f && Rivals(f, g, priority) ensures IsNewer(f, g, priority) {
      assert Above(RankOf(f, priority), RankOf(g, priority)) || RankOf(f, priority) == RankOf(g, priority);
    }
  }

  lemma SelectedKeysAgree(a: seq<Fact>, b: seq<Fact>, priority: Priorities)
    requires SameFacts(a, b)
    ensures Selected(a, priority).Keys == Selected(b, priority).Keys
  {
    SelectedKeys(a, priority);
    SelectedKeys(b, priority);
  }

  /** Without monotone revisions the comparator can cycle: then no fact of the
      key is its champion, and two orders of the same three select differently. */
  lemma InvertedRevisionsCycle()
    ensures exists a: Fact, b: Fact, c: Fact, priority: Priorities ::
      && Inverted(a, b) && DistinctRanks([a, b, c], priority)
      && IsNewer(b, a, priority) && IsNewer(a, c, priority) && IsNewer(c, b, priority)
      && !EveryKeyHasChampion([a, b, c], priority) && !OneSelection([a, b, c], priority)
      && Selected([a, c, b], priority) != Selected([b, a, c], priority)
  {
    var priority: Priorities := map[(0, 0) := 0];
    var a := Fact(0, true, 0, 0, 0, true, None, 0, 0, 0, 1, 10, 1.0);
    var b := a.(pk := 1, revision := 2, availableAt := 5);
    var c := a.(pk := 2, accession := 1, availableAt := 7);
    assert DistinctRanks([a, b, c], priority);
    Passes(a, c, b, priority);
    Passes(b, a, c, priority);
    assert Selected([a, c, b], priority)[KeyOf(a)] == b;
    assert Selected([b, a, c], priority)[KeyOf(a)] == c;
    CycleHasNoChampion(a, b, c, priority);
    SelectionIgnoresOrderExactly([a, b, c], priority);
  }

  lemma CycleHasNoChampion(a: Fact, b: Fact, c: Fact, priority: Priorities)
    requires Rivals(a, b, priority) && Rivals(a, c, priority) && Rivals(b, c, priority)
    requires IsNewer(b, a, priority) && IsNewer(a, c, priority) && IsNewer(c, b, priority)
    ensures !EveryKeyHasChampion([a, b, c], priority)
  {
    var facts := [a, b, c];
    assert facts[0] in facts && facts[1] in facts && facts[2] in facts;
    SelectedFor(facts, priority, a);
    assert !IsNewer(a, b, priority) && !IsNewer(b, c, priority) && !IsNewer(c, a, priority);
    assert !Champion(facts, a, priority) && !Champion(facts, b, priority) && !Champion(facts, c, priority);
  }

  /** The pass over three facts of one key, step by step. */
  lemma Passes(x: Fact, y: Fact, z: Fact, priority: Priorities)
    requires InScope(x, priority) && InScope(y, priority) && InScope(z, priority)
    requires KeyOf(x) == KeyOf(y) == KeyOf(z)
    ensures var kept := if IsNewer(y, x, priority) then y else x;
      Selected([x, y, z], priority) == map[KeyOf(x) := if IsNewer(z, kept, priority) then z else kept]
  {
    assert [x, y, z][..2] == [x, y] && [x, y][..1] == [x] && [x][..0] == [];
    assert Selected([x], priority) == map[KeyOf(x) := x];
    var kept := if IsNewer(y, x, priority) then y else x;
    assert Selected([x, y], priority) == map[KeyOf(x) := kept];
  }

  // ---------------------------------------------------------------------
  // The returned tuple
  // ---------------------------------------------------------------------

  function Begins(f: Fact): Date {
    f.start.GetOr(f.end)
  }

  predicate ByPeriod(f: Fact, g: Fact) {
    if f.concept != g.concept then f.concept < g.concept
    else if f.end != g.end then f.end < g.end
    else if Begins(f) != Begins(g) then Begins(f) < Begins(g)
    else f.availableAt <= g.availableAt
  }

  function Values(keys: seq<Key>, selected: map<Key, Fact>): seq<Fact>
    requires forall k :: k in keys ==> k in selected
  {
    seq(|keys|, i requires 0 <= i < |keys| => assert keys[i] in keys; selected[keys[i]])
  }

  function SelectedTuple(facts: seq<Fact>, priority: Priorities): seq<Fact> {
    SelectedKeys(facts, priority);
    Values(Inserted(facts, priority), Selected(facts, priority))
  }

  function LatestVintages(facts: seq<Fact>, priority: Priorities): seq<Fact> {
    Sort(SelectedTuple(facts, priority), (f, g) => ByPeriod(f, g))
  }

  /** `select_latest_fact_vintages`. */
  method SelectLatestFactVintages(facts: seq<Fact>, priority: Priorities) returns (vintages: seq<Fact>)
    ensures vintages == LatestVintages(facts, priority)
  {
    var selected: map<Key, Fact> := map[];
    var order: seq<Key> := [];
    var i := 0;
    while i < |facts|
      invariant 0 <= i <= |facts|
      invariant selected == Selected(facts[..i], priority)
      invariant order == Inserted(facts[..i], priority)
    {
      assert facts[..i + 1][..i] == facts[..i];
      SelectedKeys(facts[..i], priority);
      var fact := facts[i];
      if InScope(fact, priority) {
        var key := KeyOf(fact);
        if key !in selected {
          order := order + [key];
          selected := selected[key := fact];
        } else if IsNewer(fact, selected[key], priority) {
          selected := selected[key := fact];
        }
      }
      i := i + 1;
    }
    assert facts[..|facts|] == facts;
    SelectedKeys(facts, priority);
    return Sort(Values(order, selected), (f, g) => ByPeriod(f, g));
  }

  lemma ByPeriodIsTotal()
    ensures TotalPreorder((f: Fact, g: Fact) => ByPeriod(f, g))
  {
  }

  lemma SelectedValues(facts: seq<Fact>, priority: Priorities)
    ensures forall k :: k in Inserted(facts, priority) ==> k in Selected(facts, priority)
    ensures var values := Values(Inserted(facts, priority), Selected(facts, priority));
      && Distinct(values)
      && (forall f :: f in values <==>
           KeyOf(f) in Selected(facts, priority) && Selected(facts, priority)[KeyOf(f)] == f)
  {
    SelectedKeys(facts, priority);
    var keys := Inserted(facts, priority);
    var selected := Selected(facts, priority);
    var values := Values(keys, selected);
    forall i | 0 <= i < |keys|
      ensures values[i] == selected[keys[i]] && KeyOf(values[i]) == keys[i]
    {
      assert keys[i] in keys;
    }
    forall f | KeyOf(f) in selected && selected[KeyOf(f)] == f
      ensures f in values
    {
      var i :| 0 <= i < |keys| && keys[i] == KeyOf(f);
      assert values[i] == f;
    }
  }

  /** Facts of one concept that share their dates share their period identity. */
  ghost predicate DatesNamePeriods(facts: seq<Fact>) {
    forall f, g :: f in facts && g in facts && f.concept == g.concept && f.end == g.end && Begins(f) == Begins(g) ==>
      f.period == g.period
  }

  lemma SelectedTuplesAgree(a: seq<Fact>, b: seq<Fact>, priority: Priorities)
    requires Selected(a, priority) == Selected(b, priority)
    ensures multiset(SelectedTuple(a, priority)) == multiset(SelectedTuple(b, priority))
  {
    SelectedValues(a, priority);
    SelectedValues(b, priority);
    SameMembersSameMultiset(SelectedTuple(a, priority), SelectedTuple(b, priority));
  }

  lemma SortKeysDiffer(facts: seq<Fact>, priority: Priorities)
    requires DatesNamePeriods(facts)
    ensures DistinctKeys(SelectedTuple(facts, priority), (f: Fact, g: Fact) => ByPeriod(f, g))
  {
    SelectedValues(facts, priority);
    SelectedKeys(facts, priority);
    forall f, g | f in SelectedTuple(facts, priority) && g in SelectedTuple(facts, priority) && ByPeriod(f, g)
      && ByPeriod(g, f)
      ensures f == g
    {
      assert f in facts && g in facts;
    }
  }

  lemma VintagesAreFacts(facts: seq<Fact>, priority: Priorities, f: Fact)
    requires f in LatestVintages(facts, priority)
    ensures f in facts && InScope(f, priority)
  {
    var le := (f: Fact, g: Fact) => ByPeriod(f, g);
    SortKeepsElements(SelectedTuple(facts, priority), le);
    SameMembers(Sort(SelectedTuple(facts, priority), le), SelectedTuple(facts, priority));
    SelectedValues(facts, priority);
    SelectedKeys(facts, priority);
  }

  /** Every order of the facts returns the same tuple. */
  ghost predicate OneTuple(facts: seq<Fact>, priority: Priorities) {
    forall order :: multiset(order) == multiset(facts) ==>
      LatestVintages(order, priority) == LatestVintages(facts, priority)
  }

  lemma TupleOfSelection(a: seq<Fact>, b: seq<Fact>, priority: Priorities)
    requires Selected(a, priority) == Selected(b, priority) && DatesNamePeriods(a)
    ensures LatestVintages(a, priority) == LatestVintages(b, priority)
  {
    SelectedTuplesAgree(a, b, priority);
    SortKeysDiffer(a, priority);
    ByPeriodIsTotal();
    SortIgnoresInputOrder(SelectedTuple(a, priority), SelectedTuple(b, priority), (f: Fact, g: Fact) => ByPeriod(f, g));
  }

  lemma TupleMembers(facts: seq<Fact>, priority: Priorities, f: Fact)
    ensures f in LatestVintages(facts, priority) <==>
      KeyOf(f) in Selected(facts, priority) && Selected(facts, priority)[KeyOf(f)] == f
  {
    var le := (f: Fact, g: Fact) => ByPeriod(f, g);
    SortKeepsElements(SelectedTuple(facts, priority), le);
    SameMembers(Sort(SelectedTuple(facts, priority), le), SelectedTuple(facts, priority));
    SelectedValues(facts, priority);
  }

  /** The tuple names the selection it was sorted from. */
  lemma SelectionOfTuple(a: seq<Fact>, b: seq<Fact>, priority: Priorities)
    requires LatestVintages(a, priority) == LatestVintages(b, priority) && SameFacts(a, b)
    ensures Selected(a, priority) == Selected(b, priority)
  {
    SelectedKeysAgree(a, b, priority);
    forall k | k in Selected(a, priority) ensures Selected(a, priority)[k] == Selected(b, priority)[k] {
      SelectedFrom(a, priority, k);
      TupleMembers(a, priority, Selected(a, priority)[k]);
      TupleMembers(b, priority, Selected(a, priority)[k]);
    }
  }

  /** When dates name periods, so does the returned tuple: it is the same for every
      order exactly when every key has its champion. */
  lemma VintagesIgnoreOrderExactly(facts: seq<Fact>, priority: Priorities)
    requires DatesNamePeriods(facts)
    ensures OneTuple(facts, priority) <==> EveryKeyHasChampion(facts, priority)
  {
    SelectionIgnoresOrderExactly(facts, priority);
    forall order | multiset(order) == multiset(facts)
      ensures LatestVintages(order, priority) == LatestVintages(facts, priority)
         <==> Selected(order, priority) == Selected(facts, priority)
    {
      SameMembers(facts, order);
      if Selected(order, priority) == Selected(facts, priority) {
        TupleOfSelection(facts, order, priority);
      } else if LatestVintages(order, priority) == LatestVintages(facts, priority) {
        SelectionOfTuple(order, facts, priority);
      }
    }
  }

  // ---------------------------------------------------------------------
  // The returned tuple, field by field
  // ---------------------------------------------------------------------

  predicate Reviewed(f: Fact, priority: Priorities) {
    f.sec && (f.concept, f.alias) in priority
  }

  /** Within a series no later revision became available earlier. */
  ghost predicate AvailabilityFollowsRevision(facts: seq<Fact>) {
    forall f, g :: f in facts && g in facts
      && f.alias == g.alias && f.period == g.period && f.accession == g.accession && f.unit == g.unit
      && f.revision < g.revision
      ==> f.availableAt <= g.availableAt
  }

  /** Nothing reviewed of f's concept and period is more current. */
  ghost predicate MostCurrent(facts: seq<Fact>, f: Fact, priority: Priorities) {
    && f in facts && Reviewed(f, priority)
    && forall g :: g in facts && Reviewed(g, priority) && g.concept == f.concept && g.period == f.period ==>
         AsCurrentAs(f, g, priority)
  }

  /** By concept, then end, then start, then availability. */
  predicate InOrder(f: Fact, g: Fact) {
    || f.concept < g.concept
    || (f.concept == g.concept && f.end < g.end)
    || (f.concept == g.concept && f.end == g.end && f.start.GetOr(f.end) < g.start.GetOr(g.end))
    || (f.concept == g.concept && f.end == g.end && f.start.GetOr(f.end) == g.start.GetOr(g.end)
        && f.availableAt <= g.availableAt)
  }

  /** On any facts: the tuple has one reviewed fact for every concept and period
      that has any, in period order. */
  lemma VintagesByKey(facts: seq<Fact>, priority: Priorities)
    ensures var vintages := LatestVintages(facts, priority);
      && (forall f :: f in vintages ==> f in facts && Reviewed(f, priority))
      && (forall g :: g in facts && Reviewed(g, priority) ==>
            exists f :: f in vintages && f.concept == g.concept && f.period == g.period)
      && (forall f, g :: f in vintages && g in vintages && f.concept == g.concept && f.period == g.period ==> f == g)
      && (forall i, k :: 0 <= i < k < |vintages| ==> InOrder(vintages[i], vintages[k]))
  {
    var vintages := LatestVintages(facts, priority);
    forall f ensures f in vintages <==>
      KeyOf(f) in Selected(facts, priority) && Selected(facts, priority)[KeyOf(f)] == f
    {
      TupleMembers(facts, priority, f);
    }
    SelectedKeys(facts, priority);
    forall g | g in facts && Reviewed(g, priority)
      ensures exists f :: f in vintages && f.concept == g.concept && f.period == g.period
    {
      SelectedFor(facts, priority, g);
      SelectedFrom(facts, priority, KeyOf(g));
      var f := Selected(facts, priority)[KeyOf(g)];
      assert f in vintages && f.concept == g.concept && f.period == g.period;
    }
    var le := (f: Fact, g: Fact) => ByPeriod(f, g);
    ByPeriodIsTotal();
    SortIsOrderedPermutation(SelectedTuple(facts, priority), le);
    forall i, k | 0 <= i < k < |vintages| ensures InOrder(vintages[i], vintages[k]) {
      assert le(vintages[i], vintages[k]);
    }
  }

  /** And when availability follows revision, that fact is the most current of its
      concept and period. */
  lemma VintagesAreMostCurrent(facts: seq<Fact>, priority: Priorities, f: Fact)
    requires AvailabilityFollowsRevision(facts) && f in LatestVintages(facts, priority)
    ensures MostCurrent(facts, f, priority)
  {
    assert RevisionsMonotone(facts);
    TupleMembers(facts, priority, f);
    SelectedIsLatest(facts, priority);
    forall g | g in facts && Reviewed(g, priority) && g.concept == f.concept && g.period == f.period
      ensures AsCurrentAs(f, g, priority)
    {
      assert KeyOf(g) == KeyOf(f) && InScope(g, priority);
      RankComparesFields(f, g, priority);
    }
  }
}
