/** The table of job runs and the two transactions every target job goes
    through: resolving the frozen gate of a daily target, and opening, closing
    and skipping attempts (core/jobs.py and data/jobs.py). The interleavings of
    these transactions are in module JobProtocol.

    A run's primary key is its position in the table: rows are only appended. */
module TargetJobs {
  import opened Wrappers

  type Instant = int

  /** A (job name, region, target date). `Daily` is the US market job. */
  datatype Target = Daily(date: int) | Other(name: string, region: string, date: int)

  datatype Status = Running | Success | Failed | Skipped | NoData

  /** The owner text of a reservation: the word "daily", or a run's id. */
  datatype Owner = ByDaily | ByRun(id: nat)

  datatype Details =
    | NoDetails
    | Reservation(owner: Owner, gate: bool)
    | Frozen(gate: bool)
    | SkippedFor(success: nat)
    | Payload

  datatype Row = Row(target: Target, attempt: nat, status: Status, finishedAt: Option<Instant>, details: Details)

  type Table = seq<Row>

  datatype JobError =
    | ConflictingGates
    | SeveralReservations
    | OutputWithoutGate
    | ExplicitGateConflicts
    | ReservationInactive
    | ReservedByRunningOwner
    | ReservationNotRunning
    | NotASatisfiedTarget
    | SkipWithoutSuccess
    | NoGateOnSuccess
    | FinalGateMismatch
    | TaskRaised

  // ---------------------------------------------------------------------
  // Reading the table
  // ---------------------------------------------------------------------

  predicate Of(rows: Table, t: Target, i: nat) {
    i < |rows| && rows[i].target == t
  }

  predicate Succeeded(rows: Table, t: Target, i: nat) {
    Of(rows, t, i) && rows[i].status == Success
  }

  predicate ActiveRow(row: Row) {
    row.status == Running && row.details.Reservation?
  }

  predicate Active(rows: Table, t: Target, i: nat) {
    Of(rows, t, i) && ActiveRow(rows[i])
  }

  function GateIn(details: Details): Option<bool> {
    match details
    case Reservation(_, gate) => Some(gate)
    case Frozen(gate) => Some(gate)
    case _ => None
  }

  predicate Records(rows: Table, t: Target, gate: bool, i: nat) {
    Of(rows, t, i) && GateIn(rows[i].details) == Some(gate)
  }

  ghost predicate HasSuccess(rows: Table, t: Target) {
    exists i: nat :: Succeeded(rows, t, i)
  }

  ghost predicate RecordsGate(rows: Table, t: Target, gate: bool) {
    exists i: nat :: Records(rows, t, gate, i)
  }

  ghost predicate SeveralActive(rows: Table, t: Target) {
    exists i: nat, j: nat :: i < j && Active(rows, t, i) && Active(rows, t, j)
  }

  ghost predicate AtMostOneSuccess(rows: Table, t: Target) {
    forall i: nat, j: nat :: Succeeded(rows, t, i) && Succeeded(rows, t, j) ==> i == j
  }

  /** The reservation's owner is itself a run that is still going. */
  predicate OwnerRunning(rows: Table, owner: Owner) {
    owner.ByRun? && owner.id < |rows| && rows[owner.id].status == Running
  }

  ghost function ActiveOf(rows: Table, t: Target): (r: Option<nat>)
    ensures r.Some? <==> exists i: nat :: Active(rows, t, i)
    ensures r.Some? ==> Active(rows, t, r.value)
  {
    if i: nat :| Active(rows, t, i) then Some(i) else None
  }

  ghost function SuccessOf(rows: Table, t: Target): (r: Option<nat>)
    ensures r.Some? <==> HasSuccess(rows, t)
    ensures r.Some? ==> Succeeded(rows, t, r.value)
  {
    if i: nat :| Succeeded(rows, t, i) then Some(i) else None
  }

  /** `next` is one more than the largest attempt of the target so far. */
  ghost predicate IsNextAttempt(rows: Table, t: Target, next: nat) {
    && (forall i: nat :: Of(rows, t, i) ==> rows[i].attempt < next)
    && (next == 1 || exists i: nat :: Of(rows, t, i) && rows[i].attempt + 1 == next)
  }

  function LatestAttempt(rows: Table, t: Target): nat {
    if rows == [] then 0
    else
      var before := LatestAttempt(rows[..|rows| - 1], t);
      var last := rows[|rows| - 1];
      if last.target == t then Max(last.attempt, before) else before
  }

  lemma {:induction false} LatestAttemptIsLargest(rows: Table, t: Target)
    ensures IsNextAttempt(rows, t, LatestAttempt(rows, t) + 1)
  {
    if rows != [] {
      var front := rows[..|rows| - 1];
      LatestAttemptIsLargest(front, t);
      assert forall i: nat :: Of(front, t, i) ==> Of(rows, t, i) && rows[i] == front[i];
      assert forall i: nat :: Of(rows, t, i) && i < |front| ==> Of(front, t, i);
      assert rows[|front|].target == t ==> Of(rows, t, |front|);
    }
  }

  // ---------------------------------------------------------------------
  // The gate transaction
  // ---------------------------------------------------------------------

  /** What a caller of the gate transaction supplies. */
  datatype Ask = Ask(explicit: Option<bool>, owner: Owner, expected: Option<nat>)

  datatype Grant = Grant(gate: bool, reservation: Option<nat>, outputCommitted: bool)

  /** The recorded gate, else the explicit one, else the sampled one. */
  ghost function ResolvedGate(rows: Table, t: Target, explicit: Option<bool>, sampled: bool): bool {
    if RecordsGate(rows, t, true) then true
    else if RecordsGate(rows, t, false) then false
    else explicit.GetOr(sampled)
  }

  ghost function Refusal(rows: Table, t: Target, ask: Ask, output: bool): Option<JobError> {
    var active := ActiveOf(rows, t);
    if RecordsGate(rows, t, true) && RecordsGate(rows, t, false) then Some(ConflictingGates)
    else if SeveralActive(rows, t) then Some(SeveralReservations)
    else if output && !RecordsGate(rows, t, true) && !RecordsGate(rows, t, false) then Some(OutputWithoutGate)
    else if ask.explicit.Some? && RecordsGate(rows, t, !ask.explicit.value) then Some(ExplicitGateConflicts)
    else if ask.expected.Some? && active != ask.expected then Some(ReservationInactive)
    else if ask.expected.None? && active.Some? && OwnerRunning(rows, rows[active.value].details.owner) then
      Some(ReservedByRunningOwner)
    else None
  }

  function Reserved(t: Target, attempt: nat, owner: Owner, gate: bool): Row {
    Row(t, attempt, Running, None, Reservation(owner, gate))
  }

  /** The table after an accepted gate transaction: a free reservation is taken
      over, a missing one is created unless the market already succeeded. */
  ghost function ReservedTable(rows: Table, t: Target, ask: Ask, gate: bool): Table {
    var active := ActiveOf(rows, t);
    if active.Some? then
      if ask.expected.Some? then rows
      else rows[active.value := rows[active.value].(details := Reservation(ask.owner, rows[active.value].details.gate))]
    else if HasSuccess(rows, t) then rows
    else rows + [Reserved(t, LatestAttempt(rows, t) + 1, ask.owner, gate)]
  }

  ghost function GrantOf(rows: Table, t: Target, ask: Ask, output: bool, sampled: bool): Grant {
    var active := ActiveOf(rows, t);
    Grant(
      ResolvedGate(rows, t, ask.explicit, sampled),
      if active.Some? then active else if HasSuccess(rows, t) then None else Some(|rows|),
      output || HasSuccess(rows, t))
  }

  // ---------------------------------------------------------------------
  // What the gate transaction promises, row by row
  // ---------------------------------------------------------------------

  /** A row of the target, in any status, is a reservation or a result that says `gate`. */
  ghost predicate Holds(rows: Table, t: Target, gate: bool) {
    exists i :: 0 <= i < |rows| && rows[i].target == t
                && (rows[i].details.Reservation? || rows[i].details.Frozen?) && rows[i].details.gate == gate
  }

  predicate Reserving(rows: Table, t: Target, i: nat) {
    i < |rows| && rows[i].target == t && rows[i].status == Running && rows[i].details.Reservation?
  }

  /** The reservation names a run that is still going. */
  predicate HeldByRun(rows: Table, i: nat) {
    && i < |rows| && rows[i].details.Reservation? && rows[i].details.owner.ByRun?
    && rows[i].details.owner.id < |rows| && rows[rows[i].details.owner.id].status == Running
  }

  /** When the request is granted: the rows agree on one gate, the request does
      not contradict it, and no running run other than the one expected holds
      the target. */
  ghost predicate Admissible(rows: Table, t: Target, ask: Ask, output: bool) {
    && !(Holds(rows, t, true) && Holds(rows, t, false))
    && (forall i, j :: Reserving(rows, t, i) && Reserving(rows, t, j) ==> i == j)
    && (output ==> Holds(rows, t, true) || Holds(rows, t, false))
    && (ask.explicit.Some? ==> !Holds(rows, t, !ask.explicit.value))
    && (if ask.expected.Some? then Reserving(rows, t, ask.expected.value)
        else forall i :: Reserving(rows, t, i) ==> !HeldByRun(rows, i))
  }

  /** A gate that is held is granted; with none held, the explicit one, else the sampled one. */
  ghost predicate GateFollows(rows: Table, t: Target, explicit: Option<bool>, sampled: bool, gate: bool) {
    && (forall held :: Holds(rows, t, held) ==> gate == held)
    && (!Holds(rows, t, true) && !Holds(rows, t, false) ==>
          gate == if explicit.Some? then explicit.value else sampled)
  }

  /** What a grant leaves: the expected reservation as it was, a free one with a
      new owner, or a new one unless the market already succeeded. */
  ghost predicate Reserves(rows: Table, later: Table, t: Target, ask: Ask, grant: Grant) {
    match grant.reservation
    case None =>
      later == rows && (forall i :: !Reserving(rows, t, i))
      && exists i :: 0 <= i < |rows| && rows[i].target == t && rows[i].status == Success
    case Some(r) =>
      && (forall i :: Reserving(later, t, i) <==> i == r)
      && |later| >= |rows|
      && (forall i :: 0 <= i < |rows| && i != r ==> later[i] == rows[i])
      && (if r < |rows| then
            && |later| == |rows| && Reserving(rows, t, r)
            && later[r].target == rows[r].target && later[r].attempt == rows[r].attempt
            && later[r].status == rows[r].status && later[r].finishedAt == rows[r].finishedAt
            && later[r].details.Reservation? && later[r].details.gate == rows[r].details.gate
            && later[r].details.owner == if ask.expected.Some? then rows[r].details.owner else ask.owner
          else
            && r == |rows| && |later| == |rows| + 1
            && (forall i :: 0 <= i < |rows| ==> !(rows[i].target == t && rows[i].status == Success))
            && (forall i :: 0 <= i < |rows| && rows[i].target == t ==> rows[i].attempt < later[r].attempt)
            && later[r].finishedAt == None && later[r].details == Reservation(ask.owner, grant.gate))
  }

  lemma HoldsMeansRecords(rows: Table, t: Target, gate: bool)
    ensures Holds(rows, t, gate) <==> RecordsGate(rows, t, gate)
  {
    if Holds(rows, t, gate) {
      var i: nat :| i < |rows| && rows[i].target == t
        && (rows[i].details.Reservation? || rows[i].details.Frozen?) && rows[i].details.gate == gate;
      assert Records(rows, t, gate, i);
    }
    if RecordsGate(rows, t, gate) {
      var i: nat :| Records(rows, t, gate, i);
      assert rows[i].details.gate == gate;
    }
  }

  lemma ActiveMeansReserving(rows: Table, t: Target)
    ensures forall i: nat :: Active(rows, t, i) <==> Reserving(rows, t, i)
    ensures SeveralActive(rows, t) <==>
      exists i: nat, j: nat :: Reserving(rows, t, i) && Reserving(rows, t, j) && i != j
  {
    if i: nat, j: nat :| Reserving(rows, t, i) && Reserving(rows, t, j) && i != j {
      assert Active(rows, t, i) && Active(rows, t, j) && (i < j || j < i);
    }
  }

  /** The transaction refuses exactly what is not admissible. */
  lemma RefusedExactly(rows: Table, t: Target, ask: Ask, output: bool)
    ensures Refusal(rows, t, ask, output).None? <==> Admissible(rows, t, ask, output)
  {
    HoldsMeansRecords(rows, t, true);
    HoldsMeansRecords(rows, t, false);
    ActiveMeansReserving(rows, t);
    var active := ActiveOf(rows, t);
    assert active.Some? ==> Reserving(rows, t, active.value);
    assert ask.expected.Some? ==> (Active(rows, t, ask.expected.value) <==> Reserving(rows, t, ask.expected.value));
    assert active.Some? ==>
      (HeldByRun(rows, active.value) <==> OwnerRunning(rows, rows[active.value].details.owner));
  }

  /** What is granted follows the rows. */
  lemma GrantFollowsRows(rows: Table, t: Target, ask: Ask, output: bool, sampled: bool)
    requires Refusal(rows, t, ask, output).None?
    ensures GateFollows(rows, t, ask.explicit, sampled, GrantOf(rows, t, ask, output, sampled).gate)
  {
    HoldsMeansRecords(rows, t, true);
    HoldsMeansRecords(rows, t, false);
  }

  lemma GrantReserves(rows: Table, t: Target, ask: Ask, output: bool, sampled: bool)
    requires Refusal(rows, t, ask, output).None?
    ensures
      var grant := GrantOf(rows, t, ask, output, sampled);
      Reserves(rows, ReservedTable(rows, t, ask, grant.gate), t, ask, grant)
  {
    ActiveMeansReserving(rows, t);
    var grant := GrantOf(rows, t, ask, output, sampled);
    var later := ReservedTable(rows, t, ask, grant.gate);
    if grant.reservation.Some? && grant.reservation.value == |rows| {
      LatestAttemptIsLargest(rows, t);
      forall i: nat ensures Reserving(later, t, i) <==> i == |rows| {
        assert i < |rows| ==> later[i] == rows[i] && !Reserving(rows, t, i);
      }
      forall i | 0 <= i < |rows| ensures !(rows[i].target == t && rows[i].status == Success) {
        assert !Succeeded(rows, t, i);
      }
      forall i | 0 <= i < |rows| && rows[i].target == t ensures rows[i].attempt < later[|rows|].attempt {
        assert Of(rows, t, i);
      }
    } else if grant.reservation.Some? {
      var r := grant.reservation.value;
      assert Reserving(rows, t, r);
      forall i: nat ensures Reserving(later, t, i) <==> i == r {
        assert Reserving(rows, t, i) ==> i == r;
      }
    } else {
      var i: nat :| Succeeded(rows, t, i);
      assert rows[i].status == Success;
    }
  }

  lemma CommittedFollowsRows(rows: Table, later: Table, t: Target, ask: Ask, output: bool, grant: Grant)
    requires grant.outputCommitted == (output || HasSuccess(rows, t)) && Reserves(rows, later, t, ask, grant)
    ensures grant.outputCommitted <==>
      output || exists i :: 0 <= i < |later| && later[i].target == t && later[i].status == Success
  {
    if HasSuccess(rows, t) {
      var i: nat :| Succeeded(rows, t, i);
      assert later[i].target == t && later[i].status == Success;
    }
    if i :| 0 <= i < |later| && later[i].target == t && later[i].status == Success {
      assert !Reserving(later, t, i);
      assert Succeeded(rows, t, i);
    }
  }

  // ---------------------------------------------------------------------
  // The attempt transactions
  // ---------------------------------------------------------------------

  datatype Opened = Skip(run: nat) | Run(run: nat) | Refuse(error: JobError)

  predicate Stale(row: Row, t: Target) {
    row.target == t && row.status == Running
  }

  function Closed(row: Row, status: Status, now: Instant): Row {
    row.(status := status, finishedAt := Some(now))
  }

  function Superseded(row: Row, t: Target, kept: bool, now: Instant): Row {
    if Stale(row, t) && !kept then Closed(row, Failed, now) else row
  }

  function FailStale(rows: Table, t: Target, keep: Option<nat>, now: Instant): (result: Table)
    ensures |result| == |rows|
    ensures forall i: nat :: i < |rows| ==> result[i] == Superseded(rows[i], t, keep == Some(i), now)
  {
    seq(|rows|, i requires 0 <= i < |rows| => Superseded(rows[i], t, keep == Some(i), now))
  }

  ghost function Opening(rows: Table, t: Target, reserved: Option<nat>): Opened {
    if HasSuccess(rows, t) then Skip(|rows|)
    else match reserved
      case None => Run(|rows|)
      case Some(r) => if r < |rows| && Stale(rows[r], t) then Run(r) else Refuse(ReservationNotRunning)
  }

  ghost function OpenedTable(rows: Table, t: Target, reserved: Option<nat>, now: Instant): Table {
    var next := LatestAttempt(rows, t) + 1;
    match Opening(rows, t, reserved)
    case Skip(_) => rows + [Row(t, next, Skipped, Some(now), SkippedFor(SuccessOf(rows, t).value))]
    case Run(_) =>
      var cleared := FailStale(rows, t, reserved, now);
      if reserved.Some? then cleared else cleared + [Row(t, next, Running, None, NoDetails)]
    case Refuse(_) => rows
  }

  /** One older running attempt of the target: failed, finished now, else as it was. */
  predicate TimedOut(row: Row, now: Instant, after: Row) {
    && after.target == row.target && after.attempt == row.attempt && after.details == row.details
    && after.status == Failed && after.finishedAt == Some(now)
  }

  ghost predicate Newer(rows: Table, row: Row, t: Target) {
    row.target == t && forall i :: 0 <= i < |rows| && rows[i].target == t ==> rows[i].attempt < row.attempt
  }

  ghost predicate Satisfies(rows: Table, t: Target, i: nat) {
    i < |rows| && rows[i].target == t && rows[i].status == Success
  }

  /** A target that succeeded only gains a row that says so. */
  ghost predicate SkipsOnto(rows: Table, later: Table, t: Target, now: Instant) {
    && |later| == |rows| + 1 && later[..|rows|] == rows
    && Newer(rows, later[|rows|], t)
    && later[|rows|].status == Skipped && later[|rows|].finishedAt == Some(now)
    && later[|rows|].details.SkippedFor? && Satisfies(rows, t, later[|rows|].details.success)
  }

  /** Only the reserved attempt, or a new one, is left running for the target. */
  ghost predicate Takes(rows: Table, later: Table, t: Target, reserved: Option<nat>, now: Instant) {
    && |later| == |rows| + (if reserved.Some? then 0 else 1)
    && (forall i :: 0 <= i < |rows| ==>
          if rows[i].target == t && rows[i].status == Running && reserved != Some(i)
          then TimedOut(rows[i], now, later[i]) else later[i] == rows[i])
    && (reserved.None? ==>
          && Newer(rows, later[|rows|], t)
          && later[|rows|].status == Running && later[|rows|].finishedAt == None && later[|rows|].details == NoDetails)
  }

  /** What the opening transaction does, row by row. */
  ghost predicate Opens(rows: Table, later: Table, t: Target, reserved: Option<nat>, now: Instant, attempt: Opened) {
    if exists i :: Satisfies(rows, t, i) then
      attempt == Skip(|rows|) && SkipsOnto(rows, later, t, now)
    else if reserved.Some? && !(reserved.value < |rows| && rows[reserved.value].target == t
                                && rows[reserved.value].status == Running) then
      attempt == Refuse(ReservationNotRunning) && later == rows
    else
      attempt == Run(if reserved.Some? then reserved.value else |rows|) && Takes(rows, later, t, reserved, now)
  }

  lemma NextIsNewer(rows: Table, row: Row, t: Target)
    requires row.target == t && row.attempt == LatestAttempt(rows, t) + 1
    ensures Newer(rows, row, t)
  {
    LatestAttemptIsLargest(rows, t);
    forall i | 0 <= i < |rows| && rows[i].target == t ensures rows[i].attempt < row.attempt {
      assert Of(rows, t, i);
    }
  }

  lemma OpeningTakes(rows: Table, t: Target, reserved: Option<nat>, now: Instant)
    requires Opening(rows, t, reserved).Run?
    ensures Takes(rows, OpenedTable(rows, t, reserved, now), t, reserved, now)
  {
    var later := OpenedTable(rows, t, reserved, now);
    if reserved.None? {
      NextIsNewer(rows, later[|rows|], t);
    }
  }

  lemma OpeningFollowsRows(rows: Table, t: Target, reserved: Option<nat>, now: Instant)
    ensures Opens(rows, OpenedTable(rows, t, reserved, now), t, reserved, now, Opening(rows, t, reserved))
  {
    if i :| Satisfies(rows, t, i) {
      assert Succeeded(rows, t, i);
      NextIsNewer(rows, OpenedTable(rows, t, reserved, now)[|rows|], t);
    } else {
      if i: nat :| Succeeded(rows, t, i) {
        assert Satisfies(rows, t, i);
        assert false;
      }
      if Opening(rows, t, reserved).Run? {
        OpeningTakes(rows, t, reserved, now);
      }
    }
  }

  /** The first statement of the daily task: the gate is stored before any output. */
  function Gated(rows: Table, run: nat, gate: bool): Table
    requires run < |rows|
  {
    rows[run := rows[run].(details := Frozen(gate))]
  }

  datatype Outcome = Returns(status: Status, details: Details) | Raises

  predicate Supported(status: Status) {
    status == Success || status == NoData || status == Skipped
  }

  function Finished(row: Row, outcome: Outcome, now: Instant): Row {
    if outcome.Returns? && Supported(outcome.status)
    then Closed(row, outcome.status, now).(details := outcome.details)
    else Closed(row, Failed, now)
  }

  /** How a task's end shows in its row: finished now, with the status and details
      the task returned, or FAILED with the details it had. */
  ghost predicate Ends(row: Row, outcome: Outcome, now: Instant, after: Row) {
    && after.target == row.target && after.attempt == row.attempt
    && after.status != Running && after.finishedAt == Some(now)
    && (after.status == Failed <==>
          outcome.Raises? || outcome.status == Running || outcome.status == Failed)
    && (after.status == Success ==> outcome.Returns? && outcome.status == Success)
    && (if after.status == Failed then after.details == row.details
        else after.status == outcome.status && after.details == outcome.details)
  }

  /** That leaves exactly one row possible. */
  lemma EndsAsFinished(row: Row, outcome: Outcome, now: Instant, after: Row)
    ensures Ends(row, outcome, now, after) <==> after == Finished(row, outcome, now)
  {
  }

  /** `frozen_long_forecast_gate_for_run`: the gate on the success behind a run. */
  function FrozenGateForRun(rows: Table, run: nat): (r: Result<bool, JobError>)
    requires run < |rows|
    ensures r.Ok? ==>
      exists s: nat :: Records(rows, rows[run].target, r.value, s) && Succeeded(rows, rows[run].target, s)
  {
    var row := rows[run];
    if !row.target.Daily? || (row.status != Success && row.status != Skipped) then Err(NotASatisfiedTarget)
    else if row.status == Skipped && !row.details.SkippedFor? then Err(SkipWithoutSuccess)
    else if row.status == Skipped && !Succeeded(rows, row.target, row.details.success) then Err(SkipWithoutSuccess)
    else
      var s := if row.status == Skipped then row.details.success else run;
      match GateIn(rows[s].details)
      case None => Err(NoGateOnSuccess)
      case Some(gate) =>
        assert Records(rows, row.target, gate, s);
        Ok(gate)
  }

  /** Which gate a run answers with: its own if it succeeded, that of the success
      of its target it was skipped for, and none otherwise. */
  lemma GateForRunExactly(rows: Table, run: nat, gate: bool)
    requires run < |rows|
    ensures FrozenGateForRun(rows, run) == Ok(gate) <==>
      && rows[run].target.Daily?
      && exists s :: 0 <= s < |rows| && rows[s].target == rows[run].target && rows[s].status == Success
                     && (rows[s].details == Frozen(gate)
                          || (rows[s].details.Reservation? && rows[s].details.gate == gate))
                     && (s == run || (rows[run].status == Skipped && rows[run].details == SkippedFor(s)))
  {
    if FrozenGateForRun(rows, run) == Ok(gate) {
      var s := if rows[run].status == Skipped then rows[run].details.success else run;
      assert rows[s].status == Success;
    }
  }

  // ---------------------------------------------------------------------
  // The stored table and its transactions
  // ---------------------------------------------------------------------

  lemma BothBooleans(s: set<bool>)
    ensures |s| > 1 <==> true in s && false in s
    ensures |s| > 0 <==> true in s || false in s
  {
    var both := {true, false};
    assert forall b :: b in s ==> b in both;
    if true in s && false in s {
      assert s == both;
    } else if true in s {
      assert s == {true};
    } else if false in s {
      assert s == {false};
    } else {
      assert s == {};
    }
  }

  ghost predicate ActiveListed(rows: Table, t: Target, active: seq<nat>) {
    && (forall i: nat :: i in active <==> Active(rows, t, i))
    && (forall a, b :: 0 <= a < b < |active| ==> active[a] < active[b])
  }

  lemma ListedReservations(rows: Table, t: Target, active: seq<nat>)
    requires ActiveListed(rows, t, active)
    ensures |active| > 1 <==> SeveralActive(rows, t)
    ensures |active| <= 1 ==> ActiveOf(rows, t) == if |active| == 1 then Some(active[0]) else None
  {
    if |active| > 1 {
      assert active[0] in active && active[1] in active;
    }
    if SeveralActive(rows, t) {
      var i: nat, j: nat :| i < j && Active(rows, t, i) && Active(rows, t, j);
      assert i in active && j in active;
    }
    if |active| == 1 {
      assert active[0] in active;
    }
  }

  lemma OnlySuccess(rows: Table, t: Target, i: nat)
    requires AtMostOneSuccess(rows, t) && Succeeded(rows, t, i)
    ensures HasSuccess(rows, t) && SuccessOf(rows, t) == Some(i)
  {
  }

  class JobTable {
    var rows: Table

    constructor ()
      ensures rows == []
    {
      rows := [];
    }

    method NextAttempt(t: Target) returns (next: nat)
      ensures IsNextAttempt(rows, t, next)
      ensures next == LatestAttempt(rows, t) + 1
    {
      var latest := 0;
      var i := 0;
      while i < |rows|
        invariant 0 <= i <= |rows|
        invariant latest == LatestAttempt(rows[..i], t)
      {
        assert rows[..i + 1][..i] == rows[..i];
        if rows[i].target == t && rows[i].attempt > latest {
          latest := rows[i].attempt;
        }
        i := i + 1;
      }
      assert rows[..|rows|] == rows;
      LatestAttemptIsLargest(rows, t);
      next := latest + 1;
    }

    method ScanAttempts(t: Target) returns (values: set<bool>, active: seq<nat>, succeeded: bool)
      ensures forall gate :: gate in values <==> RecordsGate(rows, t, gate)
      ensures ActiveListed(rows, t, active)
      ensures succeeded <==> HasSuccess(rows, t)
    {
      values, active, succeeded := {}, [], false;
      var i: nat := 0;
      while i < |rows|
        invariant i <= |rows|
        invariant forall gate :: gate in values <==> exists k: nat :: k < i && Records(rows, t, gate, k)
        invariant forall k: nat :: k in active <==> k < i && Active(rows, t, k)
        invariant forall a, b :: 0 <= a < b < |active| ==> active[a] < active[b]
        invariant succeeded <==> exists k: nat :: k < i && Succeeded(rows, t, k)
      {
        var row := rows[i];
        if row.target == t {
          if row.status == Success {
            assert Succeeded(rows, t, i);
            succeeded := true;
          }
          if row.status == Running && row.details.Reservation? {
            assert forall a :: 0 <= a < |active| ==> active[a] in active;
            active := active + [i];
          }
          if GateIn(row.details).Some? {
            assert Records(rows, t, GateIn(row.details).value, i);
            values := values + {GateIn(row.details).value};
          }
        }
        i := i + 1;
      }
    }

    /** `_reserve_us_daily_target_gate_locked`; `output` says whether completed
        analysis output exists and `sampled` is the current provider setting. */
    method ReserveLocked(t: Target, ask: Ask, output: bool, sampled: bool) returns (result: Result<Grant, JobError>)
      modifies this
      ensures match Refusal(old(rows), t, ask, output)
        case Some(error) => result == Err(error) && rows == old(rows)
        case None =>
          && result == Ok(GrantOf(old(rows), t, ask, output, sampled))
          && rows == ReservedTable(old(rows), t, ask, GrantOf(old(rows), t, ask, output, sampled).gate)
      ensures result.Ok? <==> Admissible(old(rows), t, ask, output)
      ensures result.Err? ==> rows == old(rows)
      ensures result.Ok? ==>
        && GateFollows(old(rows), t, ask.explicit, sampled, result.value.gate)
        && Reserves(old(rows), rows, t, ask, result.value)
        && (result.value.outputCommitted <==>
              output || exists i :: 0 <= i < |rows| && rows[i].target == t && rows[i].status == Success)
    {
      result := Resolve(t, ask, output, sampled);
      ghost var was := old(rows);
      RefusedExactly(was, t, ask, output);
      if result.Ok? {
        GrantFollowsRows(was, t, ask, output, sampled);
        GrantReserves(was, t, ask, output, sampled);
        CommittedFollowsRows(was, rows, t, ask, output, result.value);
      }
    }

    /** The transaction itself. */
    method Resolve(t: Target, ask: Ask, output: bool, sampled: bool) returns (result: Result<Grant, JobError>)
      modifies this
      ensures match Refusal(old(rows), t, ask, output)
        case Some(error) => result == Err(error) && rows == old(rows)
        case None =>
          && result == Ok(GrantOf(old(rows), t, ask, output, sampled))
          && rows == ReservedTable(old(rows), t, ask, GrantOf(old(rows), t, ask, output, sampled).gate)
    {
      var frozenValues, activeReservations, successfulMarket := ScanAttempts(t);
      BothBooleans(frozenValues);
      ListedReservations(rows, t, activeReservations);
      if |frozenValues| > 1 {
        return Err(ConflictingGates);
      }
      if |activeReservations| > 1 {
        return Err(SeveralReservations);
      }
      if output && |frozenValues| == 0 {
        return Err(OutputWithoutGate);
      }
      var gate;
      if |frozenValues| > 0 {
        gate := true in frozenValues;
        if ask.explicit.Some? && ask.explicit.value != gate {
          return Err(ExplicitGateConflicts);
        }
      } else {
        gate := ask.explicit.GetOr(sampled);
      }
      var active: Option<nat> := if |activeReservations| == 1 then Some(activeReservations[0]) else None;
      if ask.expected.Some? {
        if active != ask.expected {
          return Err(ReservationInactive);
        }
      } else if active.Some? {
        var row := rows[active.value];
        if OwnerRunning(rows, row.details.owner) {
          return Err(ReservedByRunningOwner);
        }
        rows := rows[active.value := row.(details := Reservation(ask.owner, row.details.gate))];
      }
      if active.None? && !successfulMarket {
        var next := NextAttempt(t);
        active := Some(|rows|);
        rows := rows + [Reserved(t, next, ask.owner, gate)];
      }
      return Ok(Grant(gate, active, successfulMarket || output));
    }

    method FindSuccess(t: Target) returns (success: Option<nat>)
      requires AtMostOneSuccess(rows, t)
      ensures success == SuccessOf(rows, t)
    {
      var i: nat := 0;
      while i < |rows|
        invariant i <= |rows|
        invariant forall k: nat :: k < i ==> !Succeeded(rows, t, k)
      {
        if Succeeded(rows, t, i) {
          OnlySuccess(rows, t, i);
          return Some(i);
        }
        i := i + 1;
      }
      return None;
    }

    /** The stale-attempt update: one pass over the target's RUNNING rows. */
    method FailStaleAttempts(t: Target, keep: Option<nat>, now: Instant)
      modifies this
      ensures rows == FailStale(old(rows), t, keep, now)
    {
      ghost var was := rows;
      var i: nat := 0;
      while i < |rows|
        invariant i <= |rows| == |was|
        invariant forall k: nat :: k < i ==> rows[k] == Superseded(was[k], t, keep == Some(k), now)
        invariant forall k: nat :: i <= k < |rows| ==> rows[k] == was[k]
      {
        if Stale(rows[i], t) && keep != Some(i) {
          rows := rows[i := Closed(rows[i], Failed, now)];
        }
        i := i + 1;
      }
      assert rows == FailStale(was, t, keep, now);
    }

    /** The opening transaction of `execute_target_job`. */
    method OpenAttempt(t: Target, reserved: Option<nat>, now: Instant) returns (attempt: Opened)
      requires AtMostOneSuccess(rows, t)
      modifies this
      ensures attempt == Opening(old(rows), t, reserved)
      ensures rows == OpenedTable(old(rows), t, reserved, now)
      ensures Opens(old(rows), rows, t, reserved, now, attempt)
    {
      OpeningFollowsRows(rows, t, reserved, now);
      var priorSuccess := FindSuccess(t);
      var next := NextAttempt(t);
      if priorSuccess.Some? {
        attempt := Skip(|rows|);
        rows := rows + [Row(t, next, Skipped, Some(now), SkippedFor(priorSuccess.value))];
        return;
      }
      if reserved.Some? && !(reserved.value < |rows| && Stale(rows[reserved.value], t)) {
        // The transaction rolls back whatever it already closed.
        return Refuse(ReservationNotRunning);
      }
      FailStaleAttempts(t, reserved, now);
      if reserved.None? {
        attempt := Run(|rows|);
        rows := rows + [Row(t, next, Running, None, NoDetails)];
      } else {
        attempt := Run(reserved.value);
      }
    }

    /** The closing update: a supported status with its details, else FAILED. */
    method FinishAttempt(run: nat, outcome: Outcome, now: Instant)
      requires run < |rows|
      modifies this
      ensures run < |rows| && rows == old(rows)[run := rows[run]]
      ensures Ends(old(rows)[run], outcome, now, rows[run])
    {
      if outcome.Returns? && Supported(outcome.status) {
        rows := rows[run := Closed(rows[run], outcome.status, now).(details := outcome.details)];
      } else {
        rows := rows[run := Closed(rows[run], Failed, now)];
      }
    }
  }
}
