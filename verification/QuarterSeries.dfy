/** Discrete quarters from reported and year-to-date facts, and trailing twelve
    months over four of them (sec_fundamentals.py). Amounts are exact reals. */
module QuarterSeries {
  import opened Wrappers
  import opened Sorting
  import opened IntegerSets
  import opened VintageSelection

  const MIN_QUARTER_DAYS := 70
  const MAX_QUARTER_DAYS := 110
  const MIN_ANNUAL_DAYS := 350
  const MAX_ANNUAL_DAYS := 380

  /** Additive flows, day-weighted averages, and concepts never differenced. */
  datatype Kind = Additive | Weighted | Neither

  datatype Quarter = Quarter(
    value: real,
    unit: nat,
    start: Date,
    end: Date,
    availableAt: Instant,
    sources: seq<nat>,
    aliases: seq<nat>,
    derived: bool)
  {
    function Days(): int {
      end - start + 1
    }
  }

  predicate QuarterLength(days: int) {
    MIN_QUARTER_DAYS <= days <= MAX_QUARTER_DAYS
  }

  // ---------------------------------------------------------------------
  // Year-to-date differences
  // ---------------------------------------------------------------------

  function FactDays(f: Fact): int {
    f.end - Begins(f) + 1
  }

  function Reported(f: Fact): Quarter {
    Quarter(f.value, f.unit, Begins(f), f.end, f.availableAt, [f.pk], [f.alias], false)
  }

  function BothAliases(f: Fact, g: Fact): seq<nat> {
    if f.alias == g.alias then [f.alias] else [f.alias, g.alias]
  }

  /** `_subtract_ytd`. */
  function SubtractYtd(kind: Kind, previous: Fact, current: Fact, quarterStart: Date): Option<Quarter>
    requires quarterStart <= current.end
  {
    if previous.start.None? || current.start.None? then None
    else
      var days := current.end - quarterStart + 1;
      var weightedTotal := current.value * FactDays(current) as real - previous.value * FactDays(previous) as real;
      var quarter := (value: real) => Quarter(
        value, current.unit, quarterStart, current.end, Max(previous.availableAt, current.availableAt),
        [previous.pk, current.pk], BothAliases(previous, current), true);
      match kind
      case Additive => Some(quarter(current.value - previous.value))
      case Weighted => if weightedTotal / days as real <= 0.0 then None else Some(quarter(weightedTotal / days as real))
      case Neither => None
  }

  /** The quarter between two neighbouring facts of one start, if its length fits. */
  function Difference(kind: Kind, previous: Fact, current: Fact): Option<Quarter> {
    var quarterStart := previous.end + 1;
    if !QuarterLength(current.end - quarterStart + 1) then None
    else SubtractYtd(kind, previous, current, quarterStart)
  }

  // ---------------------------------------------------------------------
  // Trailing twelve months
  // ---------------------------------------------------------------------

  predicate Contiguous(window: seq<Quarter>) {
    forall i :: 0 <= i < |window| - 1 ==> window[i + 1].start - window[i].end - 1 == 0
  }

  function Total(window: seq<Quarter>): real {
    if window == [] then 0.0 else Total(window[..|window| - 1]) + window[|window| - 1].value
  }

  function TotalDays(window: seq<Quarter>): int {
    if window == [] then 0 else TotalDays(window[..|window| - 1]) + window[|window| - 1].Days()
  }

  function Weigh(value: real, days: int): real {
    value * days as real
  }

  function WeightedTotal(window: seq<Quarter>): real {
    if window == [] then 0.0
    else WeightedTotal(window[..|window| - 1]) + Weigh(window[|window| - 1].value, window[|window| - 1].Days())
  }

  function LatestAvailable(window: seq<Quarter>): Instant
    requires window != []
  {
    if |window| == 1 then window[0].availableAt
    else Max(LatestAvailable(window[..|window| - 1]), window[|window| - 1].availableAt)
  }

  /** `_ttm_value`'s arithmetic: a sum, or a day-weighted average. */
  function TtmAmount(kind: Kind, window: seq<Quarter>): real
    requires kind == Additive || TotalDays(window) != 0
  {
    if kind == Additive then Total(window) else WeightedTotal(window) / TotalDays(window) as real
  }

  /** Contiguous quarters cover exactly the days from first start to last end. */
  lemma {:induction false} DaysAddUp(window: seq<Quarter>)
    requires window != [] && Contiguous(window)
    ensures TotalDays(window) == window[|window| - 1].end - window[0].start + 1
  {
    if |window| == 1 {
      assert window[..0] == [];
    } else {
      var front := window[..|window| - 1];
      forall i | 0 <= i < |front| - 1
        ensures front[i + 1].start - front[i].end - 1 == 0
      {
        assert window[i + 1].start - window[i].end - 1 == 0;
      }
      DaysAddUp(front);
      assert window[|window| - 2 + 1].start - window[|window| - 2].end - 1 == 0;
    }
  }

  // ---------------------------------------------------------------------
  // Telescoping
  // ---------------------------------------------------------------------

  /** Year-to-date facts of one start whose neighbours are quarter steps that
      the difference accepts. */
  predicate YtdChain(kind: Kind, chain: seq<Fact>) {
    && chain != []
    && (forall f :: f in chain ==> f.start.Some? && f.start == chain[0].start)
    && (forall i :: 0 <= i < |chain| - 1 ==> Difference(kind, chain[i], chain[i + 1]).Some?)
  }

  lemma ChainFront(kind: Kind, chain: seq<Fact>)
    requires YtdChain(kind, chain) && |chain| > 1
    ensures YtdChain(kind, chain[..|chain| - 1])
    ensures Difference(kind, chain[|chain| - 2], chain[|chain| - 1]).Some?
  {
    var front := chain[..|chain| - 1];
    assert forall i :: 0 <= i < |front| ==> front[i] == chain[i];
    assert Difference(kind, chain[|chain| - 2], chain[|chain| - 2 + 1]).Some?;
  }

  /** The reported first quarter, then every year-to-date difference. */
  function Unrolled(kind: Kind, chain: seq<Fact>): (window: seq<Quarter>)
    requires YtdChain(kind, chain)
    ensures |window| == |chain|
  {
    if |chain| == 1 then [Reported(chain[0])]
    else
      var front := chain[..|chain| - 1];
      ChainFront(kind, chain);
      Unrolled(kind, front) + [Difference(kind, chain[|chain| - 2], chain[|chain| - 1]).value]
  }

  lemma QuotientTimes(x: real, d: real)
    requires d != 0.0
    ensures x / d * d == x
  {
  }

  /** One more year-to-date fact adds exactly its difference. */
  lemma DifferenceAdds(kind: Kind, previous: Fact, current: Fact)
    requires Difference(kind, previous, current).Some?
    ensures var q := Difference(kind, previous, current).value;
      && q.start == previous.end + 1 && q.end == current.end
      && (kind == Additive ==> q.value == current.value - previous.value)
      && (kind == Weighted ==>
           Weigh(q.value, q.Days()) ==
             Weigh(current.value, FactDays(current)) - Weigh(previous.value, FactDays(previous)))
  {
    if kind == Weighted {
      var q := Difference(kind, previous, current).value;
      QuotientTimes(current.value * FactDays(current) as real - previous.value * FactDays(previous) as real,
        q.Days() as real);
    }
  }

  ghost predicate Telescopes(kind: Kind, window: seq<Quarter>, first: Fact, last: Fact) {
    && window != []
    && Contiguous(window)
    && window[0].start == Begins(first)
    && window[|window| - 1].end == last.end
    && (kind == Additive ==> Total(window) == last.value)
    && (kind == Weighted ==> WeightedTotal(window) == Weigh(last.value, FactDays(last)))
  }

  lemma {:induction false} Telescoping(kind: Kind, chain: seq<Fact>)
    requires YtdChain(kind, chain)
    ensures Telescopes(kind, Unrolled(kind, chain), chain[0], chain[|chain| - 1])
  {
    var window := Unrolled(kind, chain);
    if |chain| == 1 {
      assert window[..0] == [];
    } else {
      var front := chain[..|chain| - 1];
      var previous, current := chain[|chain| - 2], chain[|chain| - 1];
      ChainFront(kind, chain);
      Telescoping(kind, front);
      DifferenceAdds(kind, previous, current);
      ExtendWindow(kind, Unrolled(kind, front), Difference(kind, previous, current).value, chain[0], previous, current);
    }
  }

  lemma ExtendWindow(kind: Kind, window: seq<Quarter>, q: Quarter, first: Fact, previous: Fact, current: Fact)
    requires Telescopes(kind, window, first, previous)
    requires q.start == previous.end + 1 && q.end == current.end
    requires kind == Additive ==> q.value == current.value - previous.value
    requires kind == Weighted ==>
      Weigh(q.value, q.Days()) == Weigh(current.value, FactDays(current)) - Weigh(previous.value, FactDays(previous))
    ensures Telescopes(kind, window + [q], first, current)
  {
    assert (window + [q])[..|window + [q]| - 1] == window;
  }

  /** Four same-start year-to-date facts a quarter apart: the reported first
      quarter and the three differences are contiguous, and their trailing
      twelve months is the full-period reported value, exactly. */
  lemma TtmOfYearToDateIsReported(kind: Kind, chain: seq<Fact>)
    requires kind != Neither && YtdChain(kind, chain) && |chain| == 4 && FactDays(chain[0]) > 0
    ensures var window := Unrolled(kind, chain);
      && |window| == 4 && Contiguous(window)
      && window[0].start == Begins(chain[3]) && window[3].end == chain[3].end
      && TotalDays(window) == FactDays(chain[3]) > 0
      && TtmAmount(kind, window) == chain[3].value
  {
    Telescoping(kind, chain);
    var window := Unrolled(kind, chain);
    assert chain[3] in chain && chain[0] in chain;
    DaysAddUp(window);
    StepsForward(kind, chain);
    WholePeriod(kind, window, chain[0], chain[3]);
  }

  lemma StepsForward(kind: Kind, chain: seq<Fact>)
    requires YtdChain(kind, chain) && |chain| == 4
    ensures chain[0].end < chain[3].end
  {
    assert Difference(kind, chain[0], chain[0 + 1]).Some?;
    assert Difference(kind, chain[1], chain[1 + 1]).Some?;
    assert Difference(kind, chain[2], chain[2 + 1]).Some?;
  }

  lemma WholePeriod(kind: Kind, window: seq<Quarter>, first: Fact, last: Fact)
    requires kind != Neither && Telescopes(kind, window, first, last)
    requires TotalDays(window) == FactDays(last) > 0
    ensures TtmAmount(kind, window) == last.value
  {
    if kind == Weighted {
      CancelDays(last.value, FactDays(last) as real);
    }
  }

  lemma CancelDays(x: real, d: real)
    requires d != 0.0
    ensures x * d / d == x
  {
  }

  // ---------------------------------------------------------------------
  // Weighted averages stay between their quarters
  // ---------------------------------------------------------------------

  predicate Between(window: seq<Quarter>, low: real, high: real) {
    forall q :: q in window ==> low <= q.value <= high && q.Days() > 0
  }

  /** `total` over `days` averages between the bounds. */
  predicate Averages(total: real, days: int, low: real, high: real) {
    Weigh(low, days) <= total <= Weigh(high, days)
  }

  lemma AddQuarter(total: real, days: int, value: real, more: int, low: real, high: real)
    requires Averages(total, days, low, high) && low <= value <= high && more >= 0
    ensures Averages(total + Weigh(value, more), days + more, low, high)
  {
    ScaleBounds(value, low, high, more as real);
    assert (days + more) as real == days as real + more as real;
  }

  lemma ScaleBounds(value: real, low: real, high: real, days: real)
    requires low <= value <= high && days >= 0.0
    ensures low * days <= value * days <= high * days
  {
  }

  lemma {:induction false} WeightedTotalBounds(window: seq<Quarter>, low: real, high: real)
    requires Between(window, low, high)
    ensures TotalDays(window) >= |window|
    ensures Averages(WeightedTotal(window), TotalDays(window), low, high)
  {
    if window != [] {
      var front := window[..|window| - 1];
      var last := window[|window| - 1];
      assert last in window;
      assert Between(front, low, high) by {
        assert forall q :: q in front ==> q in window;
      }
      WeightedTotalBounds(front, low, high);
      AddQuarter(WeightedTotal(front), TotalDays(front), last.value, last.Days(), low, high);
    }
  }

  lemma SignOfFactor(p: real, d: real)
    requires d > 0.0 && p * d >= 0.0
    ensures p >= 0.0
  {
  }

  lemma DivideBounds(total: real, days: int, low: real, high: real)
    requires days > 0 && Averages(total, days, low, high)
    ensures low <= total / days as real <= high
  {
    var d := days as real;
    var average := total / d;
    QuotientTimes(total, d);
    assert (average - low) * d == total - low * d;
    assert (high - average) * d == high * d - total;
    SignOfFactor(average - low, d);
    SignOfFactor(high - average, d);
  }

  /** A day-weighted trailing average lies between its smallest and largest quarter. */
  lemma WeightedAverageIsBetween(kind: Kind, window: seq<Quarter>, low: real, high: real)
    requires kind != Additive && window != [] && Between(window, low, high)
    ensures TotalDays(window) > 0 && low <= TtmAmount(kind, window) <= high
  {
    WeightedTotalBounds(window, low, high);
    DivideBounds(WeightedTotal(window), TotalDays(window), low, high);
  }
}
