/** The stored credit allowance that paces provider requests (live_us.py).

    Instants are exact reals, in seconds since the epoch; a UTC day is their
    quotient by 86400. The spacing 60/k is exact rather than rounded. */
module CreditBudget {
  import opened Wrappers
  import opened IntegerSets

  const DEFAULT_DAILY_CREDIT_LIMIT := 800
  const DEFAULT_CREDITS_PER_MINUTE := 8
  const DAY_SECONDS := 86400.0

  /** A metadata entry as stored: missing, unreadable, or an integer. */
  datatype Setting = Absent | Unreadable | Whole(value: int)

  /** `next_request_not_before` as stored: not a string, unreadable or without a
      timezone, or an instant. */
  datatype Slot = Unset | Malformed | At(instant: real)

  datatype Record = Record(
    enabled: bool,
    dailyLimit: Setting,
    perMinute: Setting,
    usageDate: Option<int>,
    used: Setting,
    next: Slot)

  datatype BudgetError = InvalidCredits | ConfigurationError | QuotaError

  function UtcDay(now: real): int {
    (now / DAY_SECONDS).Floor
  }

  /** `_metadata_positive_int`. */
  function PositiveOr(setting: Setting, default: nat): Option<nat> {
    match setting
    case Absent => Some(default)
    case Unreadable => None
    case Whole(v) => if v <= 0 then None else Some(v)
  }

  /** `_usage_for_today`: None is a configuration error. */
  function UsageOn(record: Record, day: int): Option<nat> {
    if record.usageDate != Some(day) then Some(0)
    else match record.used
      case Absent => Some(0)
      case Unreadable => None
      case Whole(v) => if v < 0 then None else Some(v)
  }

  function DailyLimit(record: Record): Option<nat> {
    PositiveOr(record.dailyLimit, DEFAULT_DAILY_CREDIT_LIMIT)
  }

  function PerMinute(record: Record): Option<nat> {
    PositiveOr(record.perMinute, DEFAULT_CREDITS_PER_MINUTE)
  }

  function Interval(record: Record): real
    requires PerMinute(record).Some? && PerMinute(record).value > 0
  {
    60.0 / PerMinute(record).value as real
  }

  function Later(a: real, b: real): real {
    if a >= b then a else b
  }

  // ---------------------------------------------------------------------
  // One request
  // ---------------------------------------------------------------------

  /** Why a consume at `now` is refused, if it is. */
  function Refusal(record: Record, requireEnabled: bool, now: real): Option<BudgetError> {
    var used := UsageOn(record, UtcDay(now));
    if requireEnabled && !record.enabled then Some(ConfigurationError)
    else if DailyLimit(record).None? || PerMinute(record).None? || used.None? then Some(ConfigurationError)
    else if used.value >= DailyLimit(record).value then Some(QuotaError)
    else if record.next.Malformed? then Some(ConfigurationError)
    else None
  }

  /** The slot an accepted consume reserves. */
  function SlotAt(record: Record, now: real): real {
    if record.next.At? then Later(now, record.next.instant) else now
  }

  function Charged(record: Record, now: real): Record
    requires UsageOn(record, UtcDay(now)).Some? && PerMinute(record).Some? && PerMinute(record).value > 0
  {
    record.(
      usageDate := Some(UtcDay(now)),
      used := Whole(UsageOn(record, UtcDay(now)).value + 1),
      next := At(SlotAt(record, now) + Interval(record)))
  }

  lemma LimitsArePositive(record: Record)
    ensures DailyLimit(record).Some? ==> DailyLimit(record).value > 0
    ensures PerMinute(record).Some? ==> PerMinute(record).value > 0
  {
  }

  // ---------------------------------------------------------------------
  // The same, in seconds and stored numbers
  // ---------------------------------------------------------------------

  /** From midnight to midnight. */
  predicate OnUtcDay(now: real, day: int) {
    day as real * 86400.0 <= now < (day as real + 1.0) * 86400.0
  }

  /** A stored limit is positive; a missing one has its default. */
  predicate LimitIs(setting: Setting, default: nat, limit: nat) {
    limit > 0 && (setting == Whole(limit) || (setting.Absent? && limit == default))
  }

  /** What the record says was used that day: nothing if it speaks of another. */
  predicate UsedIs(record: Record, day: int, used: nat) {
    if record.usageDate == Some(day) then record.used == Whole(used) || (record.used.Absent? && used == 0)
    else used == 0
  }

  /** Everything a consume reads. */
  predicate Reads(record: Record, requireEnabled: bool, now: real, day: int, limit: nat, k: nat, used: nat) {
    && (requireEnabled ==> record.enabled)
    && OnUtcDay(now, day) && LimitIs(record.dailyLimit, 800, limit) && LimitIs(record.perMinute, 8, k)
    && UsedIs(record, day, used)
  }

  /** The slot is the later of now and the stored one; one more credit is used
      that day, and the next slot is a k-th of a minute on. */
  predicate Charges(record: Record, now: real, day: int, k: nat, used: nat, slot: real, later: Record) {
    && slot >= now && (record.next.At? ==> slot >= record.next.instant)
    && (slot == now || (record.next.At? && slot == record.next.instant))
    && later.enabled == record.enabled && later.dailyLimit == record.dailyLimit
    && later.perMinute == record.perMinute
    && later.usageDate == Some(day) && later.used == Whole(used + 1)
    && later.next.At? && (later.next.instant - slot) * k as real == 60.0
  }

  lemma UtcDayIsMidnightToMidnight(now: real, day: int)
    ensures UtcDay(now) == day <==> OnUtcDay(now, day)
  {
    var x := now / 86400.0;
    assert x * 86400.0 == now;
    assert x.Floor as real <= x < x.Floor as real + 1.0;
    if x.Floor < day {
      assert x.Floor as real + 1.0 <= day as real;
    }
  }

  lemma LimitsByFields(record: Record)
    ensures forall n: nat :: DailyLimit(record) == Some(n) <==> LimitIs(record.dailyLimit, 800, n)
    ensures forall n: nat :: PerMinute(record) == Some(n) <==> LimitIs(record.perMinute, 8, n)
  {
  }

  lemma UsageByFields(record: Record, day: int)
    ensures forall n: nat :: UsageOn(record, day) == Some(n) <==> UsedIs(record, day, n)
  {
  }

  /** The values a consume reads are the only ones, and decide it. */
  lemma RefusedByFields(record: Record, requireEnabled: bool, now: real, day: int, limit: nat, k: nat, used: nat)
    requires Reads(record, requireEnabled, now, day, limit, k, used)
    ensures UtcDay(now) == day && UsageOn(record, day) == Some(used) && PerMinute(record) == Some(k)
    ensures DailyLimit(record) == Some(limit)
    ensures Refusal(record, requireEnabled, now) ==
      if used >= limit then Some(QuotaError) else if record.next.Malformed? then Some(ConfigurationError) else None
  {
    UtcDayIsMidnightToMidnight(now, day);
    LimitsByFields(record);
    UsageByFields(record, day);
  }

  /** Without them it is refused for its configuration. */
  lemma UnreadableIsRefused(record: Record, requireEnabled: bool, now: real)
    ensures (exists day: int, limit: nat, k: nat, used: nat :: Reads(record, requireEnabled, now, day, limit, k, used))
      || Refusal(record, requireEnabled, now) == Some(ConfigurationError)
  {
    var day := UtcDay(now);
    UtcDayIsMidnightToMidnight(now, day);
    LimitsByFields(record);
    UsageByFields(record, day);
    if DailyLimit(record).Some? && PerMinute(record).Some? && UsageOn(record, day).Some?
       && (requireEnabled ==> record.enabled) {
      assert Reads(record, requireEnabled, now, day, DailyLimit(record).value, PerMinute(record).value,
          UsageOn(record, day).value);
    }
  }

  lemma ChargedByFields(record: Record, requireEnabled: bool, now: real, day: int, limit: nat, k: nat, used: nat)
    requires Reads(record, requireEnabled, now, day, limit, k, used)
    ensures UsageOn(record, UtcDay(now)).Some? && PerMinute(record) == Some(k) && k > 0
    ensures Charges(record, now, day, k, used, SlotAt(record, now), Charged(record, now))
  {
    RefusedByFields(record, requireEnabled, now, day, limit, k, used);
    IntervalFills(k, Interval(record));
  }

  lemma IntervalFills(k: nat, interval: real)
    requires k > 0 && interval == 60.0 / k as real
    ensures interval * k as real == 60.0
  {
  }

  /** A consume that is accepted, and what it leaves. */
  ghost predicate Accepts(record: Record, requireEnabled: bool, now: real, slot: real, later: Record) {
    exists day: int, limit: nat, k: nat, used: nat ::
      && Reads(record, requireEnabled, now, day, limit, k, used) && used < limit && !record.next.Malformed?
      && Charges(record, now, day, k, used, slot, later)
  }

  ghost predicate SpentOut(record: Record, requireEnabled: bool, now: real) {
    exists day: int, limit: nat, k: nat, used: nat :: Reads(record, requireEnabled, now, day, limit, k, used)
      && used >= limit
  }

  lemma ConsumeByFields(record: Record, requireEnabled: bool, now: real)
    ensures Refusal(record, requireEnabled, now) == Some(QuotaError) <==> SpentOut(record, requireEnabled, now)
    ensures Refusal(record, requireEnabled, now).None? <==>
      exists slot, later :: Accepts(record, requireEnabled, now, slot, later)
    ensures Refusal(record, requireEnabled, now).None? ==>
      UsageOn(record, UtcDay(now)).Some? && PerMinute(record).Some? && PerMinute(record).value > 0
      && Accepts(record, requireEnabled, now, SlotAt(record, now), Charged(record, now))
  {
    UnreadableIsRefused(record, requireEnabled, now);
    if day: int, limit: nat, k: nat, used: nat :| Reads(record, requireEnabled, now, day, limit, k, used) {
      RefusedByFields(record, requireEnabled, now, day, limit, k, used);
      ChargedByFields(record, requireEnabled, now, day, limit, k, used);
      assert Refusal(record, requireEnabled, now).None? ==>
          Accepts(record, requireEnabled, now, SlotAt(record, now), Charged(record, now));
    }
    if slot, later :| Accepts(record, requireEnabled, now, slot, later) {
      var day: int, limit: nat, k: nat, used: nat :| Reads(record, requireEnabled, now, day, limit, k, used)
        && used < limit;
      RefusedByFields(record, requireEnabled, now, day, limit, k, used);
    }
    if SpentOut(record, requireEnabled, now) {
      var day: int, limit: nat, k: nat, used: nat :| Reads(record, requireEnabled, now, day, limit, k, used)
        && used >= limit;
      RefusedByFields(record, requireEnabled, now, day, limit, k, used);
    }
  }

  /** What the day's tally leaves covers the credits asked for. */
  ghost predicate Covers(record: Record, requireEnabled: bool, credits: int, now: real) {
    (requireEnabled ==> record.enabled)
    && exists day: int, limit: nat, used: nat :: OnUtcDay(now, day) && LimitIs(record.dailyLimit, 800, limit)
                                  && UsedIs(record, day, used) && used + credits <= limit
  }

  lemma PassesByFields(record: Record, requireEnabled: bool, credits: int, now: real)
    ensures Passes(record, requireEnabled, credits, now) <==> Covers(record, requireEnabled, credits, now)
  {
    var day := UtcDay(now);
    UtcDayIsMidnightToMidnight(now, day);
    LimitsByFields(record);
    UsageByFields(record, day);
    if Covers(record, requireEnabled, credits, now) {
      var other: int, limit: nat, used: nat :| OnUtcDay(now, other) && LimitIs(record.dailyLimit, 800, limit)
        && UsedIs(record, other, used) && used + credits <= limit;
      UtcDayIsMidnightToMidnight(now, other);
    }
    if Passes(record, requireEnabled, credits, now) {
      assert LimitIs(record.dailyLimit, 800, DailyLimit(record).value);
      assert UsedIs(record, day, UsageOn(record, day).value) && OnUtcDay(now, day);
    }
  }

  class ProviderCreditBudget {
    var record: Record
    const requireEnabled: bool

    constructor (record: Record, requireEnabled: bool)
      ensures this.record == record && this.requireEnabled == requireEnabled
    {
      this.record, this.requireEnabled := record, requireEnabled;
    }

    /** `preflight`, at its own clock reading. */
    method Preflight(credits: int, now: real) returns (error: Option<BudgetError>)
      ensures credits <= 0 ==> error == Some(InvalidCredits)
      ensures credits > 0 ==> (error.None? <==> Passes(record, requireEnabled, credits, now))
      ensures credits > 0 ==> (error.None? <==> Covers(record, requireEnabled, credits, now))
    {
      PassesByFields(record, requireEnabled, credits, now);
      if credits <= 0 {
        return Some(InvalidCredits);
      }
      if requireEnabled && !record.enabled {
        return Some(ConfigurationError);
      }
      var dailyLimit := PositiveOr(record.dailyLimit, DEFAULT_DAILY_CREDIT_LIMIT);
      if dailyLimit.None? {
        return Some(ConfigurationError);
      }
      var used := UsageOn(record, UtcDay(now));
      if used.None? {
        return Some(ConfigurationError);
      }
      if used.value + credits > dailyLimit.value {
        return Some(QuotaError);
      }
      return None;
    }

    /** `consume`: reserves the next slot, or refuses and stores nothing. */
    method Consume(now: real) returns (slot: Result<real, BudgetError>)
      modifies this
      ensures match Refusal(old(record), requireEnabled, now)
        case Some(error) => slot == Err(error) && record == old(record)
        case None =>
          && slot == Ok(SlotAt(old(record), now))
          && UsageOn(old(record), UtcDay(now)).Some? && PerMinute(old(record)).Some? && PerMinute(old(record)).value > 0
          && record == Charged(old(record), now)
      ensures slot.Ok? <==> exists at, later :: Accepts(old(record), requireEnabled, now, at, later)
      ensures slot.Ok? ==> Accepts(old(record), requireEnabled, now, slot.value, record)
      ensures slot == Err(QuotaError) <==> SpentOut(old(record), requireEnabled, now)
    {
      ConsumeByFields(record, requireEnabled, now);
      if requireEnabled && !record.enabled {
        return Err(ConfigurationError);
      }
      LimitsArePositive(record);
      var dailyLimit := PositiveOr(record.dailyLimit, DEFAULT_DAILY_CREDIT_LIMIT);
      if dailyLimit.None? {
        return Err(ConfigurationError);
      }
      var creditsPerMinute := PositiveOr(record.perMinute, DEFAULT_CREDITS_PER_MINUTE);
      if creditsPerMinute.None? {
        return Err(ConfigurationError);
      }
      var usageDate := UtcDay(now);
      var used := UsageOn(record, usageDate);
      if used.None? {
        return Err(ConfigurationError);
      }
      if used.value >= dailyLimit.value {
        return Err(QuotaError);
      }
      var reservedAt := now;
      if record.next.Malformed? {
        return Err(ConfigurationError);
      }
      if record.next.At? {
        reservedAt := Later(reservedAt, record.next.instant);
      }
      var interval := 60.0 / creditsPerMinute.value as real;
      record := record.(usageDate := Some(usageDate), used := Whole(used.value + 1), next := At(reservedAt + interval));
      return Ok(reservedAt);
    }
  }

  predicate Passes(record: Record, requireEnabled: bool, credits: int, now: real) {
    && (requireEnabled ==> record.enabled)
    && DailyLimit(record).Some?
    && UsageOn(record, UtcDay(now)).Some?
    && UsageOn(record, UtcDay(now)).value + credits <= DailyLimit(record).value
  }

  // ---------------------------------------------------------------------
  // Serialised runs
  // ---------------------------------------------------------------------

  datatype Grant = Grant(at: real, slot: real)

  datatype Run = Run(record: Record, grants: seq<Grant>)

  /** The record and the accepted requests after consumes at these instants. */
  function RunOf(record: Record, requireEnabled: bool, times: seq<real>): Run {
    if times == [] then Run(record, [])
    else
      var before := RunOf(record, requireEnabled, times[..|times| - 1]);
      var now := times[|times| - 1];
      if Refusal(before.record, requireEnabled, now).Some? then before
      else
        LimitsArePositive(before.record);
        Run(Charged(before.record, now), before.grants + [Grant(now, SlotAt(before.record, now))])
  }

  ghost predicate Forward(times: seq<real>) {
    forall i, j :: 0 <= i < j < |times| ==> times[i] <= times[j]
  }

  // ---------------------------------------------------------------------
  // Spacing
  // ---------------------------------------------------------------------

  ghost predicate Spaced(grants: seq<Grant>, gap: real) {
    forall i :: 0 <= i < |grants| - 1 ==> grants[i + 1].slot >= grants[i].slot + gap
  }

  /** Reserved slots are at least 60/k apart, whatever the clock does. */
  lemma {:induction false} SlotsAreSpaced(record: Record, requireEnabled: bool, times: seq<real>)
    requires PerMinute(record).Some? && PerMinute(record).value > 0
    ensures var run := RunOf(record, requireEnabled, times);
      && run.record.perMinute == record.perMinute && run.record.dailyLimit == record.dailyLimit
      && run.record.enabled == record.enabled
      && Spaced(run.grants, Interval(record))
      && (run.grants != [] ==> run.record.next == At(run.grants[|run.grants| - 1].slot + Interval(record)))
      && (run.grants == [] ==> run.record == record)
  {
    if times != [] {
      SlotsAreSpaced(record, requireEnabled, times[..|times| - 1]);
    }
  }

  lemma {:induction false} GapsAddUp(grants: seq<Grant>, gap: real, i: nat, j: nat)
    requires Spaced(grants, gap) && i <= j < |grants|
    ensures grants[j].slot >= grants[i].slot + (j - i) as real * gap
    decreases j
  {
    if i < j {
      GapsAddUp(grants, gap, i, j - 1);
      assert grants[j - 1 + 1].slot >= grants[j - 1].slot + gap;
      assert (j - i) as real == (j - 1 - i) as real + 1.0;
      assert (j - i) as real * gap == (j - 1 - i) as real * gap + gap;
    }
  }

  /** The accepted requests whose slot falls in `[from, from + 60)`. */
  function InMinute(grants: seq<Grant>, from: real): set<int> {
    set i | 0 <= i < |grants| && from <= grants[i].slot < from + 60.0
  }

  lemma MinuteMembersAreClose(grants: seq<Grant>, k: nat, from: real, i: nat, j: nat)
    requires k > 0 && Spaced(grants, 60.0 / k as real)
    requires i <= j && i in InMinute(grants, from) && j in InMinute(grants, from)
    ensures j - i < k
  {
    var gap := 60.0 / k as real;
    GapsAddUp(grants, gap, i, j);
    assert k as real * gap == 60.0;
    if j - i >= k {
      ScaleUp((j - i) as real, k as real, gap);
    }
  }

  lemma ScaleUp(a: real, b: real, gap: real)
    requires a >= b && gap >= 0.0
    ensures a * gap >= b * gap
  {
  }

  function Span(lo: int, n: nat): set<int> {
    if n == 0 then {} else Span(lo, n - 1) + {lo + n - 1}
  }

  lemma {:induction false} SpanSize(lo: int, n: nat)
    ensures |Span(lo, n)| == n
    ensures forall i :: i in Span(lo, n) <==> lo <= i < lo + n
  {
    if n > 0 {
      SpanSize(lo, n - 1);
    }
  }

  lemma SubsetSize(s: set<int>, t: set<int>)
    requires s <= t
    ensures |s| <= |t|
  {
    assert t == s + (t - s);
  }

  /** Any half-open minute holds at most k reserved slots. */
  lemma AtMostKPerMinute(record: Record, requireEnabled: bool, times: seq<real>, from: real)
    requires PerMinute(record).Some? && PerMinute(record).value > 0
    ensures |InMinute(RunOf(record, requireEnabled, times).grants, from)| <= PerMinute(record).value
  {
    var grants := RunOf(record, requireEnabled, times).grants;
    var k := PerMinute(record).value;
    var inside := InMinute(grants, from);
    SlotsAreSpaced(record, requireEnabled, times);
    if inside != {} {
      var low := Least(inside);
      SpanSize(low, k);
      forall i | i in inside
        ensures i in Span(low, k)
      {
        MinuteMembersAreClose(grants, k, from, low, i);
      }
      SubsetSize(inside, Span(low, k));
    }
  }

  // ---------------------------------------------------------------------
  // The daily cap
  // ---------------------------------------------------------------------

  function OnDay(grants: seq<Grant>, day: int): nat {
    if grants == [] then 0
    else OnDay(grants[..|grants| - 1], day) + (if UtcDay(grants[|grants| - 1].at) == day then 1 else 0)
  }

  lemma DaysFollow(a: real, b: real)
    requires a <= b
    ensures UtcDay(a) <= UtcDay(b)
  {
    assert a / DAY_SECONDS <= b / DAY_SECONDS;
  }

  lemma OnDayNext(grants: seq<Grant>, g: Grant, day: int)
    ensures OnDay(grants + [g], day) == OnDay(grants, day) + if UtcDay(g.at) == day then 1 else 0
  {
    assert (grants + [g])[..|grants|] == grants;
  }

  lemma {:induction false} LimitIsFixed(record: Record, requireEnabled: bool, times: seq<real>)
    ensures var run := RunOf(record, requireEnabled, times);
      && run.record.dailyLimit == record.dailyLimit && run.record.perMinute == record.perMinute
      && run.record.enabled == record.enabled
      && |run.grants| <= |times|
      && (forall g :: g in run.grants ==> g.at in times)
  {
    if times != [] {
      LimitIsFixed(record, requireEnabled, times[..|times| - 1]);
    }
  }

  /** No UTC day comes back after a different one. */
  ghost predicate DaysAreUnbroken(times: seq<real>) {
    forall i, j, k :: 0 <= i < j < k < |times| && UtcDay(times[i]) == UtcDay(times[k]) ==>
      UtcDay(times[j]) == UtcDay(times[i])
  }

  lemma ForwardIsUnbroken(times: seq<real>)
    requires Forward(times)
    ensures DaysAreUnbroken(times)
  {
    forall i, j, k | 0 <= i < j < k < |times| && UtcDay(times[i]) == UtcDay(times[k])
      ensures UtcDay(times[j]) == UtcDay(times[i])
    {
      DaysFollow(times[i], times[j]);
      DaysFollow(times[j], times[k]);
    }
  }

  /** At most the daily limit is accepted on any UTC day of the clock. */
  ghost predicate DayCapped(record: Record, run: Run) {
    forall d :: OnDay(run.grants, d) > 0 ==>
      DailyLimit(record).Some? && OnDay(run.grants, d) <= DailyLimit(record).value
  }

  function Last(run: Run): real
    requires run.grants != []
  {
    run.grants[|run.grants| - 1].at
  }

  /** The stored tally covers what was accepted on the stored day, which is the
      day of the last accepted request. */
  ghost predicate TallyCovers(run: Run) {
    run.grants != [] ==>
      var day := UtcDay(Last(run));
      run.record.usageDate == Some(day) && run.record.used.Whole? && run.record.used.value >= OnDay(run.grants, day)
  }

  /** A charge reads at least what was accepted today. */
  lemma TodayIsCovered(before: Run, today: int)
    requires TallyCovers(before) && UsageOn(before.record, today).Some?
    requires before.grants != [] && UtcDay(Last(before)) != today ==> OnDay(before.grants, today) == 0
    ensures OnDay(before.grants, today) <= UsageOn(before.record, today).value
  {
  }

  lemma OneMoreIsCapped(record: Record, before: Run, after: Run, grant: Grant)
    requires DayCapped(record, before) && after.grants == before.grants + [grant]
    requires DailyLimit(record).Some? && OnDay(before.grants, UtcDay(grant.at)) < DailyLimit(record).value
    ensures DayCapped(record, after)
  {
    forall d | OnDay(after.grants, d) > 0 ensures OnDay(after.grants, d) <= DailyLimit(record).value {
      OnDayNext(before.grants, grant, d);
    }
  }

  lemma GrantKeepsCap(record: Record, before: Run, now: real, requireEnabled: bool)
    requires DayCapped(record, before) && TallyCovers(before) && before.record.dailyLimit == record.dailyLimit
    requires Refusal(before.record, requireEnabled, now).None? && PerMinute(before.record).Some?
      && PerMinute(before.record).value > 0
    requires before.grants != [] && UtcDay(Last(before)) != UtcDay(now) ==> OnDay(before.grants, UtcDay(now)) == 0
    ensures var after := Run(Charged(before.record, now), before.grants + [Grant(now, SlotAt(before.record, now))]);
      DayCapped(record, after) && TallyCovers(after)
  {
    var grant := Grant(now, SlotAt(before.record, now));
    var after := Run(Charged(before.record, now), before.grants + [grant]);
    TodayIsCovered(before, UtcDay(now));
    OneMoreIsCapped(record, before, after, grant);
    OnDayNext(before.grants, grant, UtcDay(now));
  }

  /** A day that was left does not come back, so nothing was accepted on it yet. */
  lemma {:induction false} NewDayIsEmpty(record: Record, requireEnabled: bool, times: seq<real>, now: real)
    requires DaysAreUnbroken(times + [now])
    ensures var grants := RunOf(record, requireEnabled, times).grants;
      grants != [] && UtcDay(grants[|grants| - 1].at) != UtcDay(now) ==> OnDay(grants, UtcDay(now)) == 0
  {
    var run := RunOf(record, requireEnabled, times);
    if run.grants != [] && OnDay(run.grants, UtcDay(now)) > 0 {
      var m := LastAccepted(record, requireEnabled, times);
      var i := SomeOnDay(record, requireEnabled, times[..m + 1], UtcDay(now));
      var all := times + [now];
      assert all[i] == times[i] && all[m] == times[m] && all[|times|] == now;
      assert i < m ==> UtcDay(all[m]) == UtcDay(all[i]);
    }
  }

  /** The reading at which the last accepted request was accepted. */
  lemma {:induction false} LastAccepted(record: Record, requireEnabled: bool, times: seq<real>) returns (m: nat)
    requires RunOf(record, requireEnabled, times).grants != []
    ensures m < |times| && RunOf(record, requireEnabled, times[..m + 1]).grants ==
      RunOf(record, requireEnabled, times).grants
    ensures times[m] == Last(RunOf(record, requireEnabled, times))
  {
    var n := |times| - 1;
    var before := RunOf(record, requireEnabled, times[..n]);
    if Refusal(before.record, requireEnabled, times[n]).Some? {
      m := LastAccepted(record, requireEnabled, times[..n]);
      assert times[..n][..m + 1] == times[..m + 1];
    } else {
      m := n;
      assert times[..n + 1] == times;
      LimitsArePositive(before.record);
    }
  }

  lemma {:induction false} SomeOnDay(record: Record, requireEnabled: bool, times: seq<real>, day: int) returns (i: nat)
    requires OnDay(RunOf(record, requireEnabled, times).grants, day) > 0
    ensures i < |times| && UtcDay(times[i]) == day
  {
    var n := |times| - 1;
    var before := RunOf(record, requireEnabled, times[..n]);
    if UtcDay(times[n]) == day {
      i := n;
    } else {
      if Refusal(before.record, requireEnabled, times[n]).None? {
        OnDayNext(before.grants, Grant(times[n], SlotAt(before.record, times[n])), day);
      }
      i := SomeOnDay(record, requireEnabled, times[..n], day);
    }
  }

  /** Whatever record it starts from, stored usage date included. */
  lemma {:induction false} DailyCap(record: Record, requireEnabled: bool, times: seq<real>)
    requires DaysAreUnbroken(times)
    ensures DayCapped(record, RunOf(record, requireEnabled, times)) && TallyCovers(RunOf(record, requireEnabled, times))
  {
    if times != [] {
      var front, now := times[..|times| - 1], times[|times| - 1];
      assert times == front + [now];
      forall i, j, k | 0 <= i < j < k < |front| && UtcDay(front[i]) == UtcDay(front[k])
        ensures UtcDay(front[j]) == UtcDay(front[i]) {
        assert front[i] == times[i] && front[j] == times[j] && front[k] == times[k];
      }
      DailyCap(record, requireEnabled, front);
      LimitIsFixed(record, requireEnabled, front);
      var before := RunOf(record, requireEnabled, front);
      if Refusal(before.record, requireEnabled, now).None? {
        LimitsArePositive(before.record);
        NewDayIsEmpty(record, requireEnabled, front, now);
        GrantKeepsCap(record, before, now, requireEnabled);
      }
    }
  }

  // ---------------------------------------------------------------------
  // When the clock can overspend
  // ---------------------------------------------------------------------

  /** One credit a day, nothing used yet. */
  function OneADay(): Record {
    Record(true, Whole(1), Absent, None, Absent, Unset)
  }

  lemma FirstOfItsDay(record: Record, now: real)
    requires record.enabled && record.dailyLimit == Whole(1) && record.perMinute == Absent && !record.next.Malformed?
    requires record.usageDate != Some(UtcDay(now)) || record.used == Whole(1)
    ensures Refusal(record, true, now).None? <==> record.usageDate != Some(UtcDay(now))
  {
  }

  lemma {:induction false} OneADayTally(times: seq<real>)
    ensures var record := RunOf(OneADay(), true, times).record;
      && record.enabled && record.dailyLimit == Whole(1) && record.perMinute == Absent && !record.next.Malformed?
      && if times == [] then record.usageDate == None
         else record.usageDate == Some(UtcDay(times[|times| - 1])) && record.used == Whole(1)
  {
    if times != [] {
      var front := times[..|times| - 1];
      OneADayTally(front);
      FirstOfItsDay(RunOf(OneADay(), true, front).record, times[|times| - 1]);
    }
  }

  /** A request is accepted exactly when the clock enters another day. */
  lemma OneADayNext(times: seq<real>, now: real, day: int)
    ensures OnDay(RunOf(OneADay(), true, times + [now]).grants, day) == OnDay(RunOf(OneADay(), true, times).grants, day)
      + if UtcDay(now) == day && (times != [] ==> UtcDay(times[|times| - 1]) != day) then 1 else 0
  {
    var before := RunOf(OneADay(), true, times);
    assert (times + [now])[..|times|] == times;
    OneADayTally(times);
    FirstOfItsDay(before.record, now);
    if Refusal(before.record, true, now).None? {
      OnDayNext(before.grants, Grant(now, SlotAt(before.record, now)), day);
    }
  }

  lemma {:induction false} LastDayIsAccepted(times: seq<real>)
    requires times != []
    ensures OnDay(RunOf(OneADay(), true, times).grants, UtcDay(times[|times| - 1])) >= 1
  {
    var front, now := times[..|times| - 1], times[|times| - 1];
    assert times == front + [now];
    OneADayNext(front, now, UtcDay(now));
    if front != [] {
      LastDayIsAccepted(front);
    }
  }

  lemma {:induction false} DayIsAccepted(times: seq<real>, i: nat)
    requires i < |times|
    ensures OnDay(RunOf(OneADay(), true, times).grants, UtcDay(times[i])) >= 1
  {
    if i == |times| - 1 {
      LastDayIsAccepted(times);
    } else {
      var front, now := times[..|times| - 1], times[|times| - 1];
      assert times == front + [now];
      OneADayNext(front, now, UtcDay(times[i]));
      DayIsAccepted(front, i);
    }
  }

  /** A day that comes back is accepted again. */
  lemma {:induction false} ReturningDayIsAcceptedTwice(times: seq<real>, i: nat, j: nat, k: nat)
    requires i < j < k < |times| && UtcDay(times[i]) == UtcDay(times[k]) != UtcDay(times[j])
    ensures OnDay(RunOf(OneADay(), true, times).grants, UtcDay(times[k])) >= 2
  {
    var front, now := times[..|times| - 1], times[|times| - 1];
    var day := UtcDay(times[k]);
    assert times == front + [now];
    OneADayNext(front, now, day);
    if k < |front| {
      ReturningDayIsAcceptedTwice(front, i, j, k);
    } else if UtcDay(front[|front| - 1]) == day {
      ReturningDayIsAcceptedTwice(front, i, j, |front| - 1);
    } else {
      DayIsAccepted(front, i);
    }
  }

  lemma TwiceIsOverCap(run: Run, day: int)
    requires OnDay(run.grants, day) >= 2
    ensures !DayCapped(OneADay(), run)
  {
  }

  lemma BrokenDayOverspends(times: seq<real>)
    requires !DaysAreUnbroken(times)
    ensures !DayCapped(OneADay(), RunOf(OneADay(), true, times))
  {
    var i, j, k :| 0 <= i < j < k < |times| && UtcDay(times[i]) == UtcDay(times[k])
      && UtcDay(times[j]) != UtcDay(times[i]);
    ReturningDayIsAcceptedTwice(times, i, j, k);
    TwiceIsOverCap(RunOf(OneADay(), true, times), UtcDay(times[k]));
  }

  /** Every record is kept within its daily limit by this clock. */
  ghost predicate ClockKeepsCap(times: seq<real>) {
    forall record, requireEnabled :: DayCapped(record, RunOf(record, requireEnabled, times))
  }

  /** A clock keeps every record within its daily limit exactly when no UTC day
      comes back after a different one. */
  lemma DayCapHoldsExactly(times: seq<real>)
    ensures ClockKeepsCap(times) <==> DaysAreUnbroken(times)
  {
    if DaysAreUnbroken(times) {
      forall record, requireEnabled ensures DayCapped(record, RunOf(record, requireEnabled, times)) {
        DailyCap(record, requireEnabled, times);
      }
    } else {
      BrokenDayOverspends(times);
    }
  }

  /** A clock that steps back over midnight does overspend. */
  lemma BackwardClockOverspends()
    ensures var times := [DAY_SECONDS, 0.0, DAY_SECONDS];
      !DayCapped(OneADay(), RunOf(OneADay(), true, times))
  {
    var times := [DAY_SECONDS, 0.0, DAY_SECONDS];
    assert UtcDay(0.0) == 0 && UtcDay(DAY_SECONDS) == 1;
    ReturningDayIsAcceptedTwice(times, 0, 1, 2);
  }

  // ---------------------------------------------------------------------
  // The tally of credits already used
  // ---------------------------------------------------------------------

  /** The stored usage date is not after any of these clock readings. */
  ghost predicate NotAhead(record: Record, times: seq<real>) {
    record.usageDate.Some? ==> forall t :: t in times ==> record.usageDate.value <= UtcDay(t)
  }

  /** What was used on a day before the run and what the run accepted on it stay
      within the daily limit. */
  ghost predicate TallyCapped(record: Record, run: Run) {
    forall d :: OnDay(run.grants, d) > 0 ==> TalliedOn(record, run, d) <= DailyLimit(record).GetOr(0)
  }

  ghost function TalliedOn(record: Record, run: Run, d: int): int {
    UsageOn(record, d).GetOr(0) + OnDay(run.grants, d)
  }

  /** The stored tally of the last accepted day is exact, and no later day was accepted. */
  ghost predicate Tallied(record: Record, run: Run) {
    if run.grants == [] then run.record == record
    else
      var day := UtcDay(Last(run));
      && run.record.usageDate == Some(day) && run.record.used == Whole(TalliedOn(record, run, day))
      && (record.usageDate.Some? ==> record.usageDate.value <= day)
      && (forall d :: d > day ==> OnDay(run.grants, d) == 0)
  }

  lemma UsedToday(record: Record, before: Run, today: int)
    requires Tallied(record, before) && UsageOn(before.record, today).Some?
    requires before.grants != [] ==> UtcDay(Last(before)) <= today
    ensures UsageOn(before.record, today).value == TalliedOn(record, before, today)
  {
  }

  lemma GrantKeepsTally(record: Record, before: Run, now: real, requireEnabled: bool)
    requires Tallied(record, before) && TallyCapped(record, before) && before.record.dailyLimit == record.dailyLimit
    requires before.grants != [] ==> UtcDay(Last(before)) <= UtcDay(now)
    requires record.usageDate.Some? ==> record.usageDate.value <= UtcDay(now)
    requires Refusal(before.record, requireEnabled, now).None? && PerMinute(before.record).Some?
      && PerMinute(before.record).value > 0
    ensures var after := Run(Charged(before.record, now), before.grants + [Grant(now, SlotAt(before.record, now))]);
      Tallied(record, after) && TallyCapped(record, after)
  {
    var grant := Grant(now, SlotAt(before.record, now));
    UsedToday(record, before, UtcDay(now));
    forall d ensures OnDay(before.grants + [grant], d) == OnDay(before.grants, d) + if UtcDay(now) == d then 1 else 0 {
      OnDayNext(before.grants, grant, d);
    }
  }

  /** With a forward clock and no usage date from the future, credits used before
      the run count too. */
  lemma {:induction false} DailyTally(record: Record, requireEnabled: bool, times: seq<real>)
    requires Forward(times) && NotAhead(record, times)
    ensures Tallied(record, RunOf(record, requireEnabled, times))
    ensures TallyCapped(record, RunOf(record, requireEnabled, times))
  {
    if times != [] {
      var front, now := times[..|times| - 1], times[|times| - 1];
      assert times == front + [now];
      DailyTally(record, requireEnabled, front);
      LimitIsFixed(record, requireEnabled, front);
      var before := RunOf(record, requireEnabled, front);
      if Refusal(before.record, requireEnabled, now).None? {
        LimitsArePositive(before.record);
        if before.grants != [] {
          var last := before.grants[|before.grants| - 1];
          assert last in before.grants;
          var i :| 0 <= i < |front| && front[i] == last.at;
          assert times[i] <= times[|times| - 1];
          DaysFollow(last.at, now);
        }
        GrantKeepsTally(record, before, now, requireEnabled);
      }
    }
  }

  // ---------------------------------------------------------------------
  // Preflight
  // ---------------------------------------------------------------------

  /** From this day on the usage a consume would read is at most this. */
  ghost predicate Room(record: Record, from: int, bound: nat) {
    forall d :: d >= from ==> UsageOn(record, d).Some? && UsageOn(record, d).value <= bound
  }

  ghost predicate Usable(record: Record, requireEnabled: bool) {
    (requireEnabled ==> record.enabled) && DailyLimit(record).Some? && PerMinute(record).Some?
      && !record.next.Malformed?
  }

  lemma GrantKeepsRoom(record: Record, requireEnabled: bool, from: int, bound: nat, now: real)
    requires Usable(record, requireEnabled) && PerMinute(record).value > 0 && Room(record, from, bound)
    requires from <= UtcDay(now) && bound < DailyLimit(record).value
    ensures Refusal(record, requireEnabled, now).None?
    ensures Usable(Charged(record, now), requireEnabled) && Room(Charged(record, now), UtcDay(now), bound + 1)
  {
    assert UsageOn(record, UtcDay(now)).value <= bound;
  }

  lemma {:induction false} ConsumesAreGranted(record: Record, requireEnabled: bool, times: seq<real>, from: int,
      bound: nat)
    requires Usable(record, requireEnabled) && Room(record, from, bound) && bound + |times| <= DailyLimit(record).value
    requires Forward(times) && forall t :: t in times ==> UtcDay(t) >= from
    ensures var run := RunOf(record, requireEnabled, times);
      && |run.grants| == |times| && Usable(run.record, requireEnabled)
      && Room(run.record, if times == [] then from else UtcDay(times[|times| - 1]), bound + |times|)
  {
    if times != [] {
      var front, now := times[..|times| - 1], times[|times| - 1];
      assert times == front + [now];
      ConsumesAreGranted(record, requireEnabled, front, from, bound);
      LimitIsFixed(record, requireEnabled, front);
      if front != [] {
        DaysFollow(front[|front| - 1], now);
      }
      var before := RunOf(record, requireEnabled, front);
      LimitsArePositive(before.record);
      GrantKeepsRoom(before.record, requireEnabled, if front == [] then from else UtcDay(front[|front| - 1]),
        bound + |front|, now);
    }
  }

  /** The next n consumes are accepted, whenever they come after the check. */
  ghost predicate Guaranteed(record: Record, requireEnabled: bool, n: nat, checkedAt: real) {
    forall times: seq<real> :: |times| == n && Forward([checkedAt] + times) ==>
      |RunOf(record, requireEnabled, times).grants| == n
  }

  /** What preflight does not look at: the limit per minute, the next slot, and a
      usage date later than the check. */
  ghost predicate RestIsSound(record: Record, n: nat, checkedAt: real) {
    && PerMinute(record).Some? && !record.next.Malformed?
    && (record.usageDate.Some? && record.usageDate.value > UtcDay(checkedAt) ==>
          var used := UsageOn(record, record.usageDate.value);
          used.Some? && DailyLimit(record).Some? && used.value + n <= DailyLimit(record).value)
  }

  lemma LaterIsForward(checkedAt: real, times: seq<real>)
    requires Forward([checkedAt] + times)
    ensures Forward(times) && forall t :: t in times ==> UtcDay(t) >= UtcDay(checkedAt)
  {
    var all := [checkedAt] + times;
    forall i, j | 0 <= i < j < |times| ensures times[i] <= times[j] {
      assert all[i + 1] <= all[j + 1];
    }
    forall t | t in times ensures UtcDay(t) >= UtcDay(checkedAt) {
      var i :| 0 <= i < |times| && times[i] == t;
      assert all[0] <= all[i + 1];
      DaysFollow(checkedAt, t);
    }
  }

  lemma SoundIsGuaranteed(record: Record, requireEnabled: bool, n: nat, checkedAt: real)
    requires n > 0 && Passes(record, requireEnabled, n, checkedAt) && RestIsSound(record, n, checkedAt)
    ensures Guaranteed(record, requireEnabled, n, checkedAt)
  {
    var bound := DailyLimit(record).value - n;
    assert Room(record, UtcDay(checkedAt), bound);
    forall times: seq<real> | |times| == n && Forward([checkedAt] + times)
      ensures |RunOf(record, requireEnabled, times).grants| == n
    {
      LaterIsForward(checkedAt, times);
      ConsumesAreGranted(record, requireEnabled, times, UtcDay(checkedAt), bound);
    }
  }

  function Repeated(at: real, n: nat): (times: seq<real>)
    ensures |times| == n && forall t :: t in times ==> t == at
  {
    seq(n, _ => at)
  }

  lemma RepeatedIsForward(checkedAt: real, at: real, n: nat)
    requires checkedAt <= at
    ensures Forward([checkedAt] + Repeated(at, n)) && Forward(Repeated(at, n))
  {
    var times := Repeated(at, n);
    forall i | 0 <= i < n ensures times[i] == at {
      assert times[i] in times;
    }
  }

  /** A refused first consume is missing from the accepted ones. */
  lemma {:induction false} FirstRefused(record: Record, requireEnabled: bool, times: seq<real>)
    requires times != [] && Refusal(record, requireEnabled, times[0]).Some?
    ensures |RunOf(record, requireEnabled, times).grants| < |times|
  {
    var front := times[..|times| - 1];
    if front == [] {
      assert RunOf(record, requireEnabled, front) == Run(record, []);
    } else {
      FirstRefused(record, requireEnabled, front);
    }
  }

  lemma {:induction false} AllOnDay(grants: seq<Grant>, day: int)
    requires forall g :: g in grants ==> UtcDay(g.at) == day
    ensures OnDay(grants, day) == |grants|
  {
    if grants != [] {
      AllOnDay(grants[..|grants| - 1], day);
      assert grants[|grants| - 1] in grants;
    }
  }

  lemma DayStart(day: int)
    ensures UtcDay(day as real * DAY_SECONDS) == day
  {
    assert day as real * DAY_SECONDS / DAY_SECONDS == day as real;
  }

  lemma LaterDay(now: real, day: int)
    requires day > UtcDay(now)
    ensures now <= day as real * DAY_SECONDS
  {
    var x := now / DAY_SECONDS;
    assert x < x.Floor as real + 1.0 <= day as real;
    assert x * DAY_SECONDS == now;
    assert x * DAY_SECONDS <= day as real * DAY_SECONDS;
  }

  /** Consumes on the stored day itself use up what is left of it. */
  lemma StoredDayRunsOut(record: Record, requireEnabled: bool, n: nat, checkedAt: real)
    requires n > 0 && Guaranteed(record, requireEnabled, n, checkedAt)
    requires record.usageDate.Some? && record.usageDate.value > UtcDay(checkedAt)
    ensures var used := UsageOn(record, record.usageDate.value);
      used.Some? && DailyLimit(record).Some? && used.value + n <= DailyLimit(record).value
  {
    var day := record.usageDate.value;
    var at := day as real * DAY_SECONDS;
    var times := Repeated(at, n);
    DayStart(day);
    LaterDay(checkedAt, day);
    RepeatedIsForward(checkedAt, at, n);
    var run := RunOf(record, requireEnabled, times);
    if Refusal(record, requireEnabled, at).Some? {
      assert times[0] in times;
      FirstRefused(record, requireEnabled, times);
    }
    LimitIsFixed(record, requireEnabled, times);
    AllOnDay(run.grants, day);
    DailyTally(record, requireEnabled, times);
    assert TalliedOn(record, run, day) <= DailyLimit(record).GetOr(0);
  }

  /** A passed preflight(n) guarantees the next n consumes, at any later instants
      and across midnight, exactly when the rest of the record is sound. */
  lemma PreflightGuaranteesExactly(record: Record, requireEnabled: bool, n: nat, checkedAt: real)
    requires n > 0 && Passes(record, requireEnabled, n, checkedAt)
    ensures Guaranteed(record, requireEnabled, n, checkedAt) <==> RestIsSound(record, n, checkedAt)
  {
    if RestIsSound(record, n, checkedAt) {
      SoundIsGuaranteed(record, requireEnabled, n, checkedAt);
    }
    if Guaranteed(record, requireEnabled, n, checkedAt) {
      var times := Repeated(checkedAt, n);
      RepeatedIsForward(checkedAt, checkedAt, n);
      assert times[0] in times;
      if PerMinute(record).None? || record.next.Malformed? {
        FirstRefused(record, requireEnabled, times);
      }
      if record.usageDate.Some? && record.usageDate.value > UtcDay(checkedAt) {
        StoredDayRunsOut(record, requireEnabled, n, checkedAt);
      }
    }
  }

  /** A record that passes preflight although the first consume is refused: its
      next slot is unreadable. */
  lemma PreflightCanMislead(now: real)
    ensures var record := Record(true, Absent, Absent, None, Absent, Malformed);
      && Passes(record, true, 1, now) && Refusal(record, true, now) == Some(ConfigurationError)
      && !Guaranteed(record, true, 1, now)
  {
    PreflightGuaranteesExactly(Record(true, Absent, Absent, None, Absent, Malformed), true, 1, now);
  }
}
