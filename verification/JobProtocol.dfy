/** Every interleaving of target jobs: processes take the per-target lock,
    resolve the frozen gate, open an attempt, run the task, close the attempt
    and let go, and may crash between any two transactions. */
module JobProtocol {
  import opened Wrappers
  import opened TargetJobs

  type Pid = nat

  /** What a process was asked to do. Only the daily market job has a gate. */
  datatype Call =
    | Reserve(date: int, explicit: Option<bool>, owner: Owner)
    | Market(date: int, explicit: Option<bool>, expected: Option<nat>)
    | Job(name: string, region: string, day: int)
  {
    function Goal(): Target {
      match this
      case Reserve(date, _, _) => Daily(date)
      case Market(date, _, _) => Daily(date)
      case Job(name, region, day) => Other(name, region, day)
    }

    function Wanted(): Ask {
      match this
      case Reserve(_, explicit, owner) => Ask(explicit, owner, None)
      case Market(_, explicit, expected) => Ask(explicit, ByDaily, expected)
      case Job(_, _, _) => Ask(None, ByDaily, None)
    }
  }

  /** Where a process stands; `Ended` and `Answered` no longer hold the lock. */
  datatype Stage =
    | Waiting
    | Locked
    | Resolved(grant: Grant)
    | Ready(run: nat, gate: Option<bool>)
    | Working(run: nat, gate: Option<bool>)
    | Leaving(run: nat, gate: Option<bool>)
    | Unwinding(error: Option<JobError>)
    | Answered(run: nat, gate: Option<bool>)
    | Ended(error: Option<JobError>)

  datatype Process = Process(call: Call, stage: Stage) {
    predicate Holding() {
      !stage.Waiting? && !stage.Answered? && !stage.Ended?
    }
  }

  datatype State = State(rows: Table, procs: map<Pid, Process>, lock: map<Target, Pid>, output: set<Target>)

  datatype Event =
    | Begin(p: Pid, call: Call)
    | Acquire(p: Pid)
    | Gate(p: Pid, sampled: bool)
    | Open(p: Pid, now: Instant)
    | Launch(p: Pid)
    | Commit(p: Pid)
    | Finish(p: Pid, outcome: Outcome, now: Instant)
    | Release(p: Pid)
    | Check(p: Pid)
    | Crash(p: Pid)

  // ---------------------------------------------------------------------
  // Steps
  // ---------------------------------------------------------------------

  predicate At(s: State, p: Pid) {
    p in s.procs
  }

  /** The daily task returns only SUCCESS, with its gate; other tasks return
      details that are neither a gate, a reservation nor a skip reference. */
  predicate Produces(call: Call, gate: Option<bool>, outcome: Outcome) {
    outcome.Returns? ==>
      if call.Market? then gate.Some? && outcome == Returns(Success, Frozen(gate.value))
      else outcome.details == Payload
  }

  ghost predicate Enabled(s: State, e: Event) {
    match e
    case Begin(p, call) => !At(s, p)
    case Acquire(p) => At(s, p) && s.procs[p].stage == Waiting && s.procs[p].call.Goal() !in s.lock
    case Gate(p, _) => At(s, p) && s.procs[p].stage == Locked && !s.procs[p].call.Job?
    case Open(p, _) => At(s, p) && (s.procs[p].stage.Resolved? || (s.procs[p].stage.Locked? && s.procs[p].call.Job?))
    case Launch(p) => At(s, p) && s.procs[p].stage.Ready? && s.procs[p].stage.run < |s.rows|
    case Commit(p) => At(s, p) && s.procs[p].stage.Working? && s.procs[p].call.Market?
    case Finish(p, outcome, _) =>
      && At(s, p) && s.procs[p].stage.Working? && s.procs[p].stage.run < |s.rows|
      && Produces(s.procs[p].call, s.procs[p].stage.gate, outcome)
    case Release(p) => At(s, p) && (s.procs[p].stage.Leaving? || s.procs[p].stage.Unwinding?)
    case Check(p) => At(s, p) && s.procs[p].stage.Answered? && s.procs[p].stage.run < |s.rows|
    case Crash(p) => At(s, p)
  }

  function Put(s: State, p: Pid, stage: Stage): State
    requires At(s, p)
  {
    s.(procs := s.procs[p := s.procs[p].(stage := stage)])
  }

  function Unlocked(s: State, t: Target): State {
    s.(lock := s.lock - {t})
  }

  /** After the gate transaction a reservation call is over; the market job goes on. */
  ghost function AfterGate(s: State, p: Pid, sampled: bool): State
    requires At(s, p)
  {
    var call := s.procs[p].call;
    var t := call.Goal();
    var output := t in s.output;
    match Refusal(s.rows, t, call.Wanted(), output)
    case Some(error) => Put(s, p, Unwinding(Some(error)))
    case None =>
      var grant := GrantOf(s.rows, t, call.Wanted(), output, sampled);
      var saved := s.(rows := ReservedTable(s.rows, t, call.Wanted(), grant.gate));
      Put(saved, p, if call.Reserve? then Unwinding(None) else Resolved(grant))
  }

  ghost function AfterOpen(s: State, p: Pid, now: Instant): State
    requires At(s, p)
  {
    var proc := s.procs[p];
    var t := proc.call.Goal();
    var reserved := if proc.stage.Resolved? then proc.stage.grant.reservation else None;
    var gate := if proc.stage.Resolved? then Some(proc.stage.grant.gate) else None;
    var saved := s.(rows := OpenedTable(s.rows, t, reserved, now));
    match Opening(s.rows, t, reserved)
    case Skip(run) => Put(saved, p, Leaving(run, gate))
    case Run(run) => Put(saved, p, Ready(run, gate))
    case Refuse(error) => Put(saved, p, Unwinding(Some(error)))
  }

  function AfterLaunch(s: State, p: Pid): State
    requires At(s, p) && s.procs[p].stage.Ready? && s.procs[p].stage.run < |s.rows|
  {
    var stage := s.procs[p].stage;
    var rows :=
      if stage.gate.Some? then Gated(s.rows, stage.run, stage.gate.value) else s.rows;
    Put(s.(rows := rows), p, Working(stage.run, stage.gate))
  }

  function AfterFinish(s: State, p: Pid, outcome: Outcome, now: Instant): State
    requires At(s, p) && s.procs[p].stage.Working? && s.procs[p].stage.run < |s.rows|
  {
    var stage := s.procs[p].stage;
    var saved := s.(rows := s.rows[stage.run := Finished(s.rows[stage.run], outcome, now)]);
    Put(saved, p,
      if outcome.Returns? && Supported(outcome.status) then Leaving(stage.run, stage.gate)
      else Unwinding(Some(TaskRaised)))
  }

  function AfterRelease(s: State, p: Pid): State
    requires At(s, p)
  {
    var stage := s.procs[p].stage;
    Unlocked(
      Put(s, p,
        if stage.Leaving? then Answered(stage.run, stage.gate)
        else if stage.Unwinding? then Ended(stage.error) else stage),
      s.procs[p].call.Goal())
  }

  /** `execute_us_daily_job` ends by comparing the authoritative gate with its own. */
  function FinalCheck(rows: Table, run: nat, gate: Option<bool>): Option<JobError>
    requires run < |rows|
  {
    if gate.None? then None
    else match FrozenGateForRun(rows, run)
      case Err(error) => Some(error)
      case Ok(authoritative) => if authoritative != gate.value then Some(FinalGateMismatch) else None
  }

  ghost function Step(s: State, e: Event): State
    requires Enabled(s, e)
  {
    match e
    case Begin(p, call) => s.(procs := s.procs[p := Process(call, Waiting)])
    case Acquire(p) => Put(s.(lock := s.lock[s.procs[p].call.Goal() := p]), p, Locked)
    case Gate(p, sampled) => AfterGate(s, p, sampled)
    case Open(p, now) => AfterOpen(s, p, now)
    case Launch(p) => AfterLaunch(s, p)
    case Commit(p) => s.(output := s.output + {s.procs[p].call.Goal()})
    case Finish(p, outcome, now) => AfterFinish(s, p, outcome, now)
    case Release(p) => AfterRelease(s, p)
    case Check(p) =>
      Put(s, p, Ended(FinalCheck(s.rows, s.procs[p].stage.run, s.procs[p].stage.gate)))
    case Crash(p) =>
      var gone := s.(procs := s.procs - {p});
      if s.procs[p].Holding() then Unlocked(gone, s.procs[p].call.Goal()) else gone
  }

  const INITIAL := State([], map[], map[], {})

  ghost predicate Possible(trace: seq<Event>)
    decreases |trace|, 0
  {
    trace == [] ||
    (Possible(trace[..|trace| - 1]) && Enabled(After(trace[..|trace| - 1]), trace[|trace| - 1]))
  }

  /** The state a possible run from no rows leads to. */
  ghost function After(trace: seq<Event>): State
    requires Possible(trace)
    decreases |trace|, 1
  {
    if trace == [] then INITIAL else Step(After(trace[..|trace| - 1]), trace[|trace| - 1])
  }

  // ---------------------------------------------------------------------
  // What every reachable table keeps
  // ---------------------------------------------------------------------

  /** Two rows of one target, `a` created before `b`. */
  predicate Compatible(a: Row, b: Row) {
    a.target == b.target ==>
      && a.attempt < b.attempt
      && !(a.status == Success && b.status == Success)
      && (a.target.Daily? ==>
        && (GateIn(a.details).Some? && GateIn(b.details).Some? ==> GateIn(a.details) == GateIn(b.details))
        && !(ActiveRow(a) && ActiveRow(b))
        && !(a.status == Success && ActiveRow(b))
        && !(ActiveRow(a) && b.status == Success))
  }

  /** What a daily row's details say, by status. */
  predicate DailyDetails(row: Row) {
    match row.status
    case Running => GateIn(row.details).Some?
    case Failed => GateIn(row.details).Some?
    case Success => row.details.Frozen?
    case Skipped => row.details.SkippedFor?
    case NoData => false
  }

  predicate RowFits(rows: Table, row: Row) {
    && (row.finishedAt.None? <==> row.status == Running)
    && row.attempt >= 1
    && (row.details.SkippedFor? ==> row.status == Skipped && Succeeded(rows, row.target, row.details.success))
    && (row.target.Daily? ==> DailyDetails(row))
  }

  ghost predicate Sound(rows: Table) {
    && (forall i: nat, j: nat :: i < j < |rows| ==> Compatible(rows[i], rows[j]))
    && (forall i: nat :: i < |rows| ==> RowFits(rows, rows[i]))
  }

  ghost predicate OutputGated(rows: Table, output: set<Target>) {
    forall t :: t in output ==> t.Daily? && exists gate :: RecordsGate(rows, t, gate)
  }

  /** No other attempt of the target is running and none succeeded. */
  ghost predicate Alone(rows: Table, t: Target, run: nat) {
    && Of(rows, t, run) && rows[run].status == Running
    && !HasSuccess(rows, t)
    && (forall i: nat :: Of(rows, t, i) && rows[i].status == Running ==> i == run)
  }

  ghost predicate Satisfied(rows: Table, call: Call, run: nat, gate: Option<bool>) {
    && run < |rows|
    && (gate.Some? <==> call.Market?)
    && (gate.Some? ==> FrozenGateForRun(rows, run) == Ok(gate.value))
  }

  predicate Avoidable(error: Option<JobError>) {
    match error
    case None => true
    case Some(e) => e.ExplicitGateConflicts? || e.ReservationInactive? || e.ReservedByRunningOwner? || e.TaskRaised?
  }

  /** A market job holds the reservation it named, or one it owns itself. */
  predicate Entitled(rows: Table, call: Call, r: nat)
    requires call.Market? && r < |rows| && rows[r].details.Reservation?
  {
    if call.expected.Some? then call.expected == Some(r) else rows[r].details.owner == ByDaily
  }

  ghost predicate GrantHolds(rows: Table, call: Call, grant: Grant) {
    var t := call.Goal();
    && call.Market?
    && RecordsGate(rows, t, grant.gate)
    && match grant.reservation
       case None => HasSuccess(rows, t)
       case Some(r) =>
         && !HasSuccess(rows, t)
         && Active(rows, t, r)
         && Entitled(rows, call, r)
  }

  ghost predicate StageFits(rows: Table, proc: Process) {
    var t := proc.call.Goal();
    match proc.stage
    case Waiting => true
    case Locked => true
    case Resolved(grant) => GrantHolds(rows, proc.call, grant)
    case Ready(run, gate) =>
      && Alone(rows, t, run) && (gate.Some? <==> proc.call.Market?) && !proc.call.Reserve?
      && (gate.Some? ==>
        && GateIn(rows[run].details) == gate
        && ActiveRow(rows[run])
        && Entitled(rows, proc.call, run))
    case Working(run, gate) =>
      && Alone(rows, t, run) && (gate.Some? <==> proc.call.Market?) && !proc.call.Reserve?
      && (gate.Some? ==> rows[run].details == Frozen(gate.value))
    case Leaving(run, gate) => Satisfied(rows, proc.call, run, gate)
    case Answered(run, gate) => Satisfied(rows, proc.call, run, gate)
    case Unwinding(error) => Avoidable(error)
    case Ended(error) => Avoidable(error)
  }

  /** The lock of a target is held by exactly one process, and by no other. */
  ghost predicate LocksFit(s: State) {
    && (forall p :: p in s.procs && s.procs[p].Holding() ==>
         s.procs[p].call.Goal() in s.lock && s.lock[s.procs[p].call.Goal()] == p)
    && (forall t :: t in s.lock ==>
         s.lock[t] in s.procs && s.procs[s.lock[t]].Holding() && s.procs[s.lock[t]].call.Goal() == t)
  }

  ghost predicate ProcsFit(s: State) {
    forall p :: p in s.procs ==> StageFits(s.rows, s.procs[p])
  }

  ghost predicate Inv(s: State) {
    Sound(s.rows) && OutputGated(s.rows, s.output) && LocksFit(s) && ProcsFit(s)
  }

  // ---------------------------------------------------------------------
  // How a table may change
  // ---------------------------------------------------------------------

  /** One transaction of the holder of `t`: other targets and terminal rows keep. */
  ghost predicate Evolves(rows: Table, later: Table, t: Target) {
    && |rows| <= |later|
    && (forall i: nat :: i < |rows| ==>
         && later[i].target == rows[i].target
         && later[i].attempt == rows[i].attempt
         && (rows[i].target != t ==> later[i] == rows[i])
         && (rows[i].status != Running ==> later[i] == rows[i])
         && (GateIn(rows[i].details).Some? && rows[i].target.Daily? ==>
              GateIn(later[i].details) == GateIn(rows[i].details)))
    && (forall i: nat :: |rows| <= i < |later| ==> later[i].target == t)
  }

  lemma SuccessesLast(rows: Table, later: Table, t: Target, of: Target)
    requires Evolves(rows, later, t)
    ensures forall i: nat :: Succeeded(rows, of, i) ==> Succeeded(later, of, i)
    ensures HasSuccess(rows, of) ==> HasSuccess(later, of)
    ensures of != t ==> (HasSuccess(later, of) ==> HasSuccess(rows, of))
  {
    if HasSuccess(rows, of) {
      var i: nat :| Succeeded(rows, of, i);
      assert Succeeded(later, of, i);
    }
    if of != t && HasSuccess(later, of) {
      var i: nat :| Succeeded(later, of, i);
      assert Succeeded(rows, of, i);
    }
  }

  lemma GatesLast(rows: Table, later: Table, t: Target, of: Target, gate: bool)
    requires Evolves(rows, later, t) && of.Daily? && RecordsGate(rows, of, gate)
    ensures RecordsGate(later, of, gate)
  {
    var i: nat :| Records(rows, of, gate, i);
    assert Records(later, of, gate, i);
  }

  lemma OutputStaysGated(rows: Table, later: Table, t: Target, output: set<Target>)
    requires Evolves(rows, later, t) && OutputGated(rows, output)
    ensures OutputGated(later, output)
  {
    forall of | of in output
      ensures of.Daily? && exists gate :: RecordsGate(later, of, gate)
    {
      var gate :| RecordsGate(rows, of, gate);
      GatesLast(rows, later, t, of, gate);
    }
  }

  lemma SatisfiedLasts(rows: Table, later: Table, t: Target, call: Call, run: nat, gate: Option<bool>)
    requires Evolves(rows, later, t) && Satisfied(rows, call, run, gate)
    ensures Satisfied(later, call, run, gate)
  {
  }

  lemma AloneElsewhere(rows: Table, later: Table, t: Target, of: Target, run: nat)
    requires Evolves(rows, later, t) && of != t && Alone(rows, of, run)
    ensures Alone(later, of, run)
  {
    SuccessesLast(rows, later, t, of);
    forall i: nat | Of(later, of, i) && later[i].status == Running
      ensures i == run
    {
      assert Of(rows, of, i);
    }
  }

  /** Another process's facts survive the holder's transaction. */
  lemma BystanderKeeps(rows: Table, later: Table, t: Target, proc: Process)
    requires Evolves(rows, later, t) && StageFits(rows, proc)
    requires proc.Holding() ==> proc.call.Goal() != t
    ensures StageFits(later, proc)
  {
    var of := proc.call.Goal();
    match proc.stage {
      case Resolved(grant) =>
        SuccessesLast(rows, later, t, of);
        GatesLast(rows, later, t, of, grant.gate);
      case Ready(run, gate) => AloneElsewhere(rows, later, t, of, run);
      case Working(run, gate) => AloneElsewhere(rows, later, t, of, run);
      case Leaving(run, gate) => SatisfiedLasts(rows, later, t, proc.call, run, gate);
      case Answered(run, gate) => SatisfiedLasts(rows, later, t, proc.call, run, gate);
      case _ =>
    }
  }

  // ---------------------------------------------------------------------
  // Soundness of each kind of change
  // ---------------------------------------------------------------------

  /** `b` replaces `a` without a new success, a new reservation or another gate. */
  predicate Settles(a: Row, b: Row) {
    && b.target == a.target && b.attempt == a.attempt
    && (b.status == Success ==> a.status == Success)
    && (ActiveRow(b) ==> ActiveRow(a))
    && (a.target.Daily? ==> GateIn(b.details) == GateIn(a.details))
  }

  lemma SoundWhenSettled(rows: Table, later: Table)
    requires Sound(rows) && |later| == |rows|
    requires forall i: nat :: i < |rows| ==> Settles(rows[i], later[i]) && RowFits(later, later[i])
    ensures Sound(later)
  {
    forall i: nat, j: nat | i < j < |later|
      ensures Compatible(later[i], later[j])
    {
      assert Compatible(rows[i], rows[j]);
    }
  }

  lemma SoundAppend(rows: Table, row: Row)
    requires Sound(rows)
    requires forall i: nat :: i < |rows| ==> Compatible(rows[i], row)
    requires RowFits(rows + [row], row)
    ensures Sound(rows + [row])
    ensures Evolves(rows, rows + [row], row.target)
  {
    var later := rows + [row];
    forall i: nat | i < |later|
      ensures RowFits(later, later[i])
    {
      if i < |rows| {
        assert RowFits(rows, rows[i]);
      }
    }
  }

  /** One RUNNING row is replaced and nothing else changes. */
  lemma SoundReplace(rows: Table, i: nat, row: Row)
    requires Sound(rows) && i < |rows| && rows[i].status == Running
    requires Settles(rows[i], row) && RowFits(rows[i := row], row)
    ensures Sound(rows[i := row])
    ensures Evolves(rows, rows[i := row], row.target)
  {
    var later := rows[i := row];
    forall k: nat | k < |rows|
      ensures Settles(rows[k], later[k]) && RowFits(later, later[k])
    {
      assert RowFits(rows, rows[k]);
    }
    SoundWhenSettled(rows, later);
  }

  /** A lone running attempt may become the target's one success. */
  lemma SoundSuccess(rows: Table, t: Target, i: nat, row: Row)
    requires Sound(rows) && Alone(rows, t, i)
    requires row.target == t && row.attempt == rows[i].attempt && row.status != Running
    requires t.Daily? ==> GateIn(row.details) == GateIn(rows[i].details)
    requires RowFits(rows[i := row], row)
    ensures Sound(rows[i := row])
    ensures Evolves(rows, rows[i := row], t)
  {
    var later := rows[i := row];
    forall k: nat | k < |rows|
      ensures RowFits(later, later[k])
    {
      assert RowFits(rows, rows[k]);
    }
    forall k: nat, m: nat | k < m < |later|
      ensures Compatible(later[k], later[m])
    {
      assert Compatible(rows[k], rows[m]);
      if rows[k].target == t == rows[m].target {
        assert Of(rows, t, k) && Of(rows, t, m);
        assert !Succeeded(rows, t, k) && !Succeeded(rows, t, m);
      }
    }
  }

  lemma SoundFailStale(rows: Table, t: Target, keep: Option<nat>, now: Instant)
    requires Sound(rows)
    ensures Sound(FailStale(rows, t, keep, now))
    ensures Evolves(rows, FailStale(rows, t, keep, now), t)
  {
    var later := FailStale(rows, t, keep, now);
    forall i: nat | i < |rows|
      ensures Settles(rows[i], later[i]) && RowFits(later, later[i])
    {
      assert RowFits(rows, rows[i]);
    }
    SoundWhenSettled(rows, later);
  }

  // ---------------------------------------------------------------------
  // The gate transaction
  // ---------------------------------------------------------------------

  lemma NoConflict(rows: Table, t: Target)
    requires Sound(rows) && t.Daily?
    ensures !(RecordsGate(rows, t, true) && RecordsGate(rows, t, false))
    ensures !SeveralActive(rows, t)
    ensures AtMostOneSuccess(rows, t)
    ensures HasSuccess(rows, t) ==> ActiveOf(rows, t).None?
    ensures HasSuccess(rows, t) ==> exists gate :: RecordsGate(rows, t, gate)
  {
    forall i: nat, j: nat | Records(rows, t, true, i) && Of(rows, t, j)
      ensures !Records(rows, t, false, j)
    {
      if GateIn(rows[j].details).Some? {
        OneGate(rows, t, i, j);
      }
    }
    forall i: nat, j: nat | i < j && Active(rows, t, i) && Of(rows, t, j)
      ensures !Active(rows, t, j)
    {
      assert Compatible(rows[i], rows[j]);
    }
    OneSuccess(rows, t);
    if i: nat :| Succeeded(rows, t, i) {
      assert RowFits(rows, rows[i]);
      assert Records(rows, t, rows[i].details.gate, i);
      assert RecordsGate(rows, t, rows[i].details.gate);
      forall j: nat | Of(rows, t, j)
        ensures !Active(rows, t, j)
      {
        if i < j {
          assert Compatible(rows[i], rows[j]);
        } else if j < i {
          assert Compatible(rows[j], rows[i]);
        }
      }
    }
  }

  lemma OneGate(rows: Table, t: Target, i: nat, j: nat)
    requires Sound(rows) && t.Daily? && Of(rows, t, i) && Of(rows, t, j)
    requires GateIn(rows[i].details).Some? && GateIn(rows[j].details).Some?
    ensures GateIn(rows[i].details) == GateIn(rows[j].details)
  {
    if i < j {
      assert Compatible(rows[i], rows[j]);
    } else if j < i {
      assert Compatible(rows[j], rows[i]);
    }
  }

  lemma OneSuccess(rows: Table, t: Target)
    requires Sound(rows)
    ensures AtMostOneSuccess(rows, t)
  {
    forall i: nat, j: nat | Succeeded(rows, t, i) && Of(rows, t, j) && i != j
      ensures !Succeeded(rows, t, j)
    {
      if i < j {
        assert Compatible(rows[i], rows[j]);
      } else {
        assert Compatible(rows[j], rows[i]);
      }
    }
  }

  /** The gate transaction never meets conflicting gates, several reservations
      or ungated output. */
  lemma GateRefusals(rows: Table, t: Target, ask: Ask, output: bool)
    requires Sound(rows) && t.Daily?
    requires output ==> exists gate :: RecordsGate(rows, t, gate)
    ensures Avoidable(Refusal(rows, t, ask, output))
  {
    NoConflict(rows, t);
    if output {
      var gate :| RecordsGate(rows, t, gate);
      assert gate ==> RecordsGate(rows, t, true);
      assert !gate ==> RecordsGate(rows, t, false);
    }
  }

  lemma ResolvedGateAgrees(rows: Table, t: Target, explicit: Option<bool>, sampled: bool, i: nat)
    requires Sound(rows) && t.Daily? && Of(rows, t, i) && GateIn(rows[i].details).Some?
    ensures GateIn(rows[i].details) == Some(ResolvedGate(rows, t, explicit, sampled))
  {
    var gate := GateIn(rows[i].details).value;
    assert Records(rows, t, gate, i);
    assert RecordsGate(rows, t, gate);
    NoConflict(rows, t);
    assert !RecordsGate(rows, t, !gate);
  }

  lemma Adopted(rows: Table, t: Target, active: nat, owner: Owner)
    requires Sound(rows) && t.Daily? && Active(rows, t, active)
    ensures var row := rows[active].(details := Reservation(owner, rows[active].details.gate));
      && Sound(rows[active := row])
      && Evolves(rows, rows[active := row], t)
  {
    assert RowFits(rows, rows[active]);
    SoundReplace(rows, active, rows[active].(details := Reservation(owner, rows[active].details.gate)));
  }

  lemma CreatedReservation(rows: Table, t: Target, next: nat, owner: Owner, gate: bool)
    requires Sound(rows) && t.Daily? && next >= 1
    requires forall i: nat :: Of(rows, t, i) ==>
      rows[i].attempt < next && rows[i].status != Success && !ActiveRow(rows[i])
    requires forall i: nat :: Of(rows, t, i) && GateIn(rows[i].details).Some? ==> GateIn(rows[i].details) == Some(gate)
    ensures Sound(rows + [Reserved(t, next, owner, gate)])
    ensures Evolves(rows, rows + [Reserved(t, next, owner, gate)], t)
  {
    var row := Reserved(t, next, owner, gate);
    forall i: nat | i < |rows|
      ensures Compatible(rows[i], row)
    {
      if rows[i].target == t {
        assert Of(rows, t, i);
      }
    }
    SoundAppend(rows, row);
  }

  /** An accepted gate transaction keeps the table sound and grants what it says. */
  lemma GateAccepted(rows: Table, t: Target, ask: Ask, output: bool, sampled: bool)
    requires Sound(rows) && t.Daily? && Refusal(rows, t, ask, output).None?
    ensures var grant := GrantOf(rows, t, ask, output, sampled);
      var later := ReservedTable(rows, t, ask, grant.gate);
      && Sound(later)
      && Evolves(rows, later, t)
      && RecordsGate(later, t, grant.gate)
      && (grant.reservation.None? ==> HasSuccess(later, t))
      && (grant.reservation.Some? ==>
        && !HasSuccess(later, t)
        && Active(later, t, grant.reservation.value)
        && (if ask.expected.Some? then ask.expected == grant.reservation
            else later[grant.reservation.value].details.owner == ask.owner))
  {
    NoConflict(rows, t);
    var grant := GrantOf(rows, t, ask, output, sampled);
    forall i: nat | Of(rows, t, i) && GateIn(rows[i].details).Some?
      ensures GateIn(rows[i].details) == Some(grant.gate)
    {
      ResolvedGateAgrees(rows, t, ask.explicit, sampled, i);
    }
    var active := ActiveOf(rows, t);
    if active.Some? {
      GateTaken(rows, t, ask, active.value, grant.gate);
    } else if HasSuccess(rows, t) {
      var gate :| RecordsGate(rows, t, gate);
      var i: nat :| Records(rows, t, gate, i);
    } else {
      GateCreated(rows, t, ask, grant.gate);
    }
  }

  /** The free or presented reservation stays the active one and keeps its gate. */
  lemma GateTaken(rows: Table, t: Target, ask: Ask, active: nat, gate: bool)
    requires Sound(rows) && t.Daily? && ActiveOf(rows, t) == Some(active) && !HasSuccess(rows, t)
    requires GateIn(rows[active].details) == Some(gate)
    ensures var later := ReservedTable(rows, t, ask, gate);
      && Sound(later) && Evolves(rows, later, t) && RecordsGate(later, t, gate) && !HasSuccess(later, t)
      && Active(later, t, active)
      && (ask.expected.None? ==> later[active].details.owner == ask.owner)
  {
    var later := ReservedTable(rows, t, ask, gate);
    Adopted(rows, t, active, ask.owner);
    assert Records(later, t, gate, active);
    assert forall i: nat :: Succeeded(later, t, i) ==> Succeeded(rows, t, i);
  }

  lemma GateCreated(rows: Table, t: Target, ask: Ask, gate: bool)
    requires Sound(rows) && t.Daily? && ActiveOf(rows, t).None? && !HasSuccess(rows, t)
    requires forall i: nat :: Of(rows, t, i) && GateIn(rows[i].details).Some? ==> GateIn(rows[i].details) == Some(gate)
    ensures var later := ReservedTable(rows, t, ask, gate);
      && Sound(later) && Evolves(rows, later, t) && RecordsGate(later, t, gate) && !HasSuccess(later, t)
      && Active(later, t, |rows|) && later[|rows|].details.owner == ask.owner
  {
    var later := ReservedTable(rows, t, ask, gate);
    forall i: nat | Of(rows, t, i)
      ensures rows[i].status != Success && !ActiveRow(rows[i])
    {
      assert !Succeeded(rows, t, i) && !Active(rows, t, i);
    }
    LatestAttemptIsLargest(rows, t);
    CreatedReservation(rows, t, LatestAttempt(rows, t) + 1, ask.owner, gate);
    assert Records(later, t, gate, |rows|);
    assert forall i: nat :: Succeeded(later, t, i) ==> Succeeded(rows, t, i);
  }

  // ---------------------------------------------------------------------
  // The opening transaction
  // ---------------------------------------------------------------------

  lemma AppendedAttempt(rows: Table, t: Target, next: nat, status: Status, finishedAt: Option<Instant>,
                        details: Details)
    requires Sound(rows) && next >= 1
    requires forall i: nat :: Of(rows, t, i) ==> rows[i].attempt < next
    requires status != Success && GateIn(details).None?
    requires RowFits(rows, Row(t, next, status, finishedAt, details))
    ensures Sound(rows + [Row(t, next, status, finishedAt, details)])
    ensures Evolves(rows, rows + [Row(t, next, status, finishedAt, details)], t)
  {
    var row := Row(t, next, status, finishedAt, details);
    forall i: nat | i < |rows|
      ensures Compatible(rows[i], row)
    {
      if rows[i].target == t {
        assert Of(rows, t, i);
      }
    }
    SoundAppend(rows, row);
  }

  /** A target that already succeeded gets a SKIPPED row naming that success. */
  lemma OpenSkips(rows: Table, t: Target, reserved: Option<nat>, now: Instant)
    requires Sound(rows) && HasSuccess(rows, t)
    ensures var later := OpenedTable(rows, t, reserved, now);
      && Sound(later)
      && Evolves(rows, later, t)
      && |later| == |rows| + 1
      && later[|rows|].status == Skipped && later[|rows|].target == t
      && later[|rows|].details.SkippedFor? && Succeeded(later, t, later[|rows|].details.success)
      && later[|rows|].details.success < |rows|
  {
    var next := LatestAttempt(rows, t) + 1;
    LatestAttemptIsLargest(rows, t);
    AppendedAttempt(rows, t, next, Skipped, Some(now), SkippedFor(SuccessOf(rows, t).value));
  }

  lemma EvolvesTwice(rows: Table, middle: Table, later: Table, t: Target)
    requires Evolves(rows, middle, t) && Evolves(middle, later, t)
    ensures Evolves(rows, later, t)
  {
  }

  lemma Cleared(rows: Table, t: Target, keep: Option<nat>, now: Instant)
    requires !HasSuccess(rows, t)
    ensures var cleared := FailStale(rows, t, keep, now);
      && !HasSuccess(cleared, t)
      && (forall i: nat :: Of(cleared, t, i) ==>
           && Of(rows, t, i)
           && cleared[i].attempt == rows[i].attempt
           && (cleared[i].status == Running ==> keep == Some(i)))
  {
    var cleared := FailStale(rows, t, keep, now);
    forall i: nat | Of(cleared, t, i)
      ensures !Succeeded(cleared, t, i)
    {
      assert !Succeeded(rows, t, i);
    }
  }

  lemma FreshAttemptIsAlone(cleared: Table, row: Row, t: Target)
    requires row.target == t && row.status == Running && !HasSuccess(cleared, t)
    requires forall i: nat :: Of(cleared, t, i) ==> cleared[i].status != Running
    ensures Alone(cleared + [row], t, |cleared|)
  {
    var later := cleared + [row];
    forall i: nat | Of(later, t, i)
      ensures !Succeeded(later, t, i) && (later[i].status == Running ==> i == |cleared|)
    {
      if i < |cleared| {
        assert Of(cleared, t, i) && !Succeeded(cleared, t, i);
      }
    }
  }

  /** Otherwise the opened attempt is the target's only running one. */
  ghost predicate OpensAlone(rows: Table, later: Table, t: Target, run: nat) {
    Sound(later) && Evolves(rows, later, t) && Alone(later, t, run)
  }

  /** Nothing of the target runs or succeeded, and `next` is a fresh attempt. */
  ghost predicate Vacant(cleared: Table, t: Target, next: nat) {
    && !HasSuccess(cleared, t)
    && (forall i: nat :: Of(cleared, t, i) ==> cleared[i].attempt < next && cleared[i].status != Running)
  }

  lemma ClearedIsVacant(rows: Table, t: Target, now: Instant)
    requires !HasSuccess(rows, t)
    ensures Vacant(FailStale(rows, t, None, now), t, LatestAttempt(rows, t) + 1)
  {
    Cleared(rows, t, None, now);
    LatestAttemptIsLargest(rows, t);
  }

  lemma FreshTable(rows: Table, t: Target, now: Instant)
    requires !HasSuccess(rows, t)
    ensures Opening(rows, t, None) == Run(|rows|)
    ensures OpenedTable(rows, t, None, now) ==
      FailStale(rows, t, None, now) + [Row(t, LatestAttempt(rows, t) + 1, Running, None, NoDetails)]
  {
  }

  lemma OpenCreates(rows: Table, t: Target, now: Instant)
    requires Sound(rows) && !HasSuccess(rows, t) && !t.Daily?
    ensures Opening(rows, t, None) == Run(|rows|)
    ensures OpensAlone(rows, OpenedTable(rows, t, None, now), t, |rows|)
  {
    FreshTable(rows, t, now);
    ClearedIsVacant(rows, t, now);
    SoundFailStale(rows, t, None, now);
    FreshAttempt(rows, FailStale(rows, t, None, now), t, LatestAttempt(rows, t) + 1);
  }

  lemma OpenConsumes(rows: Table, t: Target, r: nat, now: Instant)
    requires Sound(rows) && !HasSuccess(rows, t) && Active(rows, t, r)
    ensures Opening(rows, t, Some(r)) == Run(r)
    ensures OpensAlone(rows, OpenedTable(rows, t, Some(r), now), t, r)
    ensures OpenedTable(rows, t, Some(r), now)[r] == rows[r]
  {
    SoundFailStale(rows, t, Some(r), now);
    KeptAttemptIsAlone(rows, t, r, now);
  }

  lemma KeptAttemptIsAlone(rows: Table, t: Target, r: nat, now: Instant)
    requires !HasSuccess(rows, t) && Of(rows, t, r) && rows[r].status == Running
    ensures Alone(FailStale(rows, t, Some(r), now), t, r)
    ensures FailStale(rows, t, Some(r), now)[r] == rows[r]
  {
    Cleared(rows, t, Some(r), now);
  }

  lemma FreshAttempt(rows: Table, cleared: Table, t: Target, next: nat)
    requires Sound(cleared) && Evolves(rows, cleared, t) && Vacant(cleared, t, next) && !t.Daily? && next >= 1
    ensures OpensAlone(rows, cleared + [Row(t, next, Running, None, NoDetails)], t, |cleared|)
  {
    var row := Row(t, next, Running, None, NoDetails);
    AppendedAttempt(cleared, t, next, Running, None, NoDetails);
    EvolvesTwice(rows, cleared, cleared + [row], t);
    FreshAttemptIsAlone(cleared, row, t);
  }

  lemma SkipIsSatisfied(rows: Table, call: Call, run: nat, gate: bool)
    requires Sound(rows) && call.Market?
    requires Of(rows, call.Goal(), run) && rows[run].status == Skipped
    requires RecordsGate(rows, call.Goal(), gate)
    ensures FrozenGateForRun(rows, run) == Ok(gate)
  {
    var t := call.Goal();
    assert RowFits(rows, rows[run]);
    var s := rows[run].details.success;
    assert RowFits(rows, rows[s]);
    var i: nat :| Records(rows, t, gate, i);
    OneGate(rows, t, i, s);
  }

  // ---------------------------------------------------------------------
  // Every step keeps the invariant
  // ---------------------------------------------------------------------

  /** A holder moves on, having changed only its own target's rows. */
  lemma HolderMoves(s: State, later: State, p: Pid)
    requires Inv(s) && At(s, p) && At(later, p) && s.procs[p].Holding()
    requires later.procs == s.procs[p := later.procs[p]] && later.procs[p].call == s.procs[p].call
    requires later.procs[p].Holding() && later.lock == s.lock && later.output == s.output
    requires Evolves(s.rows, later.rows, s.procs[p].call.Goal()) && Sound(later.rows)
    requires StageFits(later.rows, later.procs[p])
    ensures Inv(later)
  {
    var t := s.procs[p].call.Goal();
    OutputStaysGated(s.rows, later.rows, t, s.output);
    forall q | q in later.procs && q != p
      ensures StageFits(later.rows, later.procs[q])
    {
      BystanderKeeps(s.rows, later.rows, t, s.procs[q]);
    }
  }

  lemma NothingChanged(rows: Table, t: Target)
    ensures Evolves(rows, rows, t)
  {
  }

  lemma GateKeeps(s: State, p: Pid, sampled: bool)
    requires Inv(s) && Enabled(s, Gate(p, sampled))
    ensures Inv(Step(s, Gate(p, sampled)))
  {
    var call := s.procs[p].call;
    var t := call.Goal();
    var output := t in s.output;
    GateRefusals(s.rows, t, call.Wanted(), output);
    if Refusal(s.rows, t, call.Wanted(), output).None? {
      GateAccepted(s.rows, t, call.Wanted(), output, sampled);
    } else {
      NothingChanged(s.rows, t);
    }
    HolderMoves(s, AfterGate(s, p, sampled), p);
  }

  lemma OpenKeeps(s: State, p: Pid, now: Instant)
    requires Inv(s) && Enabled(s, Open(p, now))
    ensures Inv(Step(s, Open(p, now)))
  {
    var proc := s.procs[p];
    var t := proc.call.Goal();
    var reserved := if proc.stage.Resolved? then proc.stage.grant.reservation else None;
    var later := AfterOpen(s, p, now);
    if HasSuccess(s.rows, t) {
      OpenSkips(s.rows, t, reserved, now);
      if proc.stage.Resolved? {
        GatesLast(s.rows, later.rows, t, t, proc.stage.grant.gate);
        SkipIsSatisfied(later.rows, proc.call, |s.rows|, proc.stage.grant.gate);
      }
    } else {
      assert StageFits(s.rows, proc);
      if proc.stage.Resolved? {
        OpenConsumes(s.rows, t, reserved.value, now);
        GrantIsRecorded(s.rows, t, proc.stage.grant.gate, reserved.value);
      } else {
        OpenCreates(s.rows, t, now);
      }
    }
    HolderMoves(s, later, p);
  }

  lemma GrantIsRecorded(rows: Table, t: Target, gate: bool, r: nat)
    requires Sound(rows) && t.Daily? && RecordsGate(rows, t, gate) && Active(rows, t, r)
    ensures GateIn(rows[r].details) == Some(gate)
  {
    var i: nat :| Records(rows, t, gate, i);
    OneGate(rows, t, i, r);
  }

  lemma LaunchKeeps(s: State, p: Pid)
    requires Inv(s) && Enabled(s, Launch(p))
    ensures Inv(Step(s, Launch(p)))
  {
    var stage := s.procs[p].stage;
    var t := s.procs[p].call.Goal();
    assert StageFits(s.rows, s.procs[p]);
    if stage.gate.Some? {
      assert RowFits(s.rows, s.rows[stage.run]);
      Launched(s.rows, t, stage.run, stage.gate.value);
    } else {
      NothingChanged(s.rows, t);
    }
    HolderMoves(s, AfterLaunch(s, p), p);
  }

  lemma Launched(rows: Table, t: Target, run: nat, gate: bool)
    requires Sound(rows) && Alone(rows, t, run) && t.Daily?
    requires GateIn(rows[run].details) == Some(gate) && RowFits(rows, rows[run])
    ensures var later := rows[run := rows[run].(details := Frozen(gate))];
      Sound(later) && Evolves(rows, later, t) && Alone(later, t, run)
  {
    var later := rows[run := rows[run].(details := Frozen(gate))];
    SoundReplace(rows, run, later[run]);
    forall i: nat | Of(later, t, i)
      ensures !Succeeded(later, t, i) && (later[i].status == Running ==> i == run)
    {
      assert Of(rows, t, i) && !Succeeded(rows, t, i);
    }
  }

  lemma FinishKeeps(s: State, p: Pid, outcome: Outcome, now: Instant)
    requires Inv(s) && Enabled(s, Finish(p, outcome, now))
    ensures Inv(Step(s, Finish(p, outcome, now)))
  {
    var stage := s.procs[p].stage;
    var t := s.procs[p].call.Goal();
    var row := s.rows[stage.run];
    assert StageFits(s.rows, s.procs[p]);
    assert RowFits(s.rows, row);
    var closed := Finished(row, outcome, now);
    SoundSuccess(s.rows, t, stage.run, closed);
    HolderMoves(s, AfterFinish(s, p, outcome, now), p);
  }

  lemma BeginKeeps(s: State, p: Pid, call: Call)
    requires Inv(s) && Enabled(s, Begin(p, call))
    ensures Inv(Step(s, Begin(p, call)))
  {
  }

  lemma AcquireKeeps(s: State, p: Pid)
    requires Inv(s) && Enabled(s, Acquire(p))
    ensures Inv(Step(s, Acquire(p)))
  {
  }

  lemma CommitKeeps(s: State, p: Pid)
    requires Inv(s) && Enabled(s, Commit(p))
    ensures Inv(Step(s, Commit(p)))
  {
    var stage := s.procs[p].stage;
    var t := s.procs[p].call.Goal();
    assert StageFits(s.rows, s.procs[p]);
    assert Records(s.rows, t, stage.gate.value, stage.run);
    assert RecordsGate(s.rows, t, stage.gate.value);
  }

  lemma ReleaseKeeps(s: State, p: Pid)
    requires Inv(s) && Enabled(s, Release(p))
    ensures Inv(Step(s, Release(p)))
  {
    assert StageFits(s.rows, s.procs[p]);
  }

  lemma CheckKeeps(s: State, p: Pid)
    requires Inv(s) && Enabled(s, Check(p))
    ensures Inv(Step(s, Check(p)))
  {
    assert StageFits(s.rows, s.procs[p]);
  }

  lemma CrashKeeps(s: State, p: Pid)
    requires Inv(s) && Enabled(s, Crash(p))
    ensures Inv(Step(s, Crash(p)))
  {
  }

  lemma StepKeeps(s: State, e: Event)
    requires Inv(s) && Enabled(s, e)
    ensures Inv(Step(s, e))
  {
    match e {
      case Begin(p, call) => BeginKeeps(s, p, call);
      case Acquire(p) => AcquireKeeps(s, p);
      case Gate(p, sampled) => GateKeeps(s, p, sampled);
      case Open(p, now) => OpenKeeps(s, p, now);
      case Launch(p) => LaunchKeeps(s, p);
      case Commit(p) => CommitKeeps(s, p);
      case Finish(p, outcome, now) => FinishKeeps(s, p, outcome, now);
      case Release(p) => ReleaseKeeps(s, p);
      case Check(p) => CheckKeeps(s, p);
      case Crash(p) => CrashKeeps(s, p);
    }
  }

  lemma {:induction false} Reachable(trace: seq<Event>)
    requires Possible(trace)
    ensures Inv(After(trace))
  {
    if trace != [] {
      Reachable(trace[..|trace| - 1]);
      StepKeeps(After(trace[..|trace| - 1]), trace[|trace| - 1]);
    }
  }

  // ---------------------------------------------------------------------
  // Safety over whole runs
  // ---------------------------------------------------------------------

  /** The table constraints, and where skips point. */
  lemma TablesStayLawful(trace: seq<Event>)
    requires Possible(trace)
    ensures var rows := After(trace).rows;
      && (forall t :: AtMostOneSuccess(rows, t))
      && (forall t, i: nat, j: nat :: Of(rows, t, i) && Of(rows, t, j) && i < j ==> rows[i].attempt < rows[j].attempt)
      && (forall t, i: nat :: Of(rows, t, i) ==> (rows[i].finishedAt.None? <==> rows[i].status == Running))
      && (forall t, i: nat :: Of(rows, t, i) && rows[i].details.SkippedFor? ==>
           rows[i].status == Skipped && Succeeded(rows, t, rows[i].details.success))
  {
    Reachable(trace);
    var rows := After(trace).rows;
    forall t
      ensures AtMostOneSuccess(rows, t)
    {
      OneSuccess(rows, t);
    }
    forall t, i: nat, j: nat | Of(rows, t, i) && Of(rows, t, j) && i < j
      ensures rows[i].attempt < rows[j].attempt
    {
      assert Compatible(rows[i], rows[j]);
    }
    forall t, i: nat | Of(rows, t, i)
      ensures RowFits(rows, rows[i])
    {
    }
  }

  /** All attempts of a daily target that record a gate record the same one;
      committed output and a success each imply a recorded gate; reservations
      are unique and end with the success. */
  lemma OneFrozenGate(trace: seq<Event>, t: Target)
    requires Possible(trace) && t.Daily?
    ensures var s := After(trace);
      && !(RecordsGate(s.rows, t, true) && RecordsGate(s.rows, t, false))
      && (t in s.output ==> exists gate :: RecordsGate(s.rows, t, gate))
      && (HasSuccess(s.rows, t) ==> exists gate :: RecordsGate(s.rows, t, gate))
      && !SeveralActive(s.rows, t)
      && (HasSuccess(s.rows, t) ==> ActiveOf(s.rows, t).None?)
      && (forall i: nat :: Of(s.rows, t, i) && s.rows[i].status != Skipped ==> GateIn(s.rows[i].details).Some?)
  {
    Reachable(trace);
    var s := After(trace);
    NoConflict(s.rows, t);
    forall i: nat | Of(s.rows, t, i)
      ensures RowFits(s.rows, s.rows[i])
    {
    }
  }

  /** The conflict, missing-gate, several-reservations, reservation-not-running
      and final-mismatch errors are never raised. */
  lemma AssertionsNeverFire(trace: seq<Event>, p: Pid)
    requires Possible(trace) && At(After(trace), p)
    ensures match After(trace).procs[p].stage
      case Unwinding(error) => Avoidable(error)
      case Ended(error) => Avoidable(error)
      case _ => true
  {
    Reachable(trace);
    assert StageFits(After(trace).rows, After(trace).procs[p]);
  }

  /** Nothing but one process's stage, and the given parts, changes. */
  ghost predicate OthersStay(s: State, later: State, p: Pid) {
    && (forall q :: q in later.procs <==> q in s.procs)
    && (forall q :: q in s.procs && q != p ==> later.procs[q] == s.procs[q])
    && (p in s.procs ==> later.procs[p].call == s.procs[p].call)
    && later.output == s.output
  }

  /** The lock is taken only when it is free, and by the asking process. */
  lemma AcquireByFields(s: State, p: Pid)
    requires Enabled(s, Acquire(p))
    ensures
      var later := Step(s, Acquire(p));
      var t := s.procs[p].call.Goal();
      && t !in s.lock && t in later.lock && later.lock[t] == p
      && (forall u :: u != t ==> (u in later.lock <==> u in s.lock))
      && (forall u :: u in s.lock ==> later.lock[u] == s.lock[u])
      && later.rows == s.rows && OthersStay(s, later, p) && later.procs[p].stage == Locked
  {
  }

  /** A process opens its attempt with the reservation and gate it was granted, and
      then skips, gets ready or is refused as the rows say. */
  lemma OpenByFields(s: State, p: Pid, now: Instant)
    requires Enabled(s, Open(p, now))
    ensures
      var later := Step(s, Open(p, now));
      var was, stage := s.procs[p].stage, later.procs[p].stage;
      var reserved := if was.Resolved? then was.grant.reservation else None;
      var gate := if was.Resolved? then Some(was.grant.gate) else None;
      && OthersStay(s, later, p) && later.lock == s.lock
      && exists attempt :: Opens(s.rows, later.rows, s.procs[p].call.Goal(), reserved, now, attempt)
           && stage == (if attempt.Skip? then Leaving(attempt.run, gate)
                        else if attempt.Run? then Ready(attempt.run, gate)
                        else Unwinding(Some(attempt.error)))
  {
    var was := s.procs[p].stage;
    var reserved := if was.Resolved? then was.grant.reservation else None;
    OpeningFollowsRows(s.rows, s.procs[p].call.Goal(), reserved, now);
  }

  /** Before the market task does anything its row says the gate; other rows and
      other jobs' rows stay. */
  lemma LaunchByFields(s: State, p: Pid)
    requires Enabled(s, Launch(p))
    ensures
      var later := Step(s, Launch(p));
      var was := s.procs[p].stage;
      && OthersStay(s, later, p) && later.lock == s.lock && later.procs[p].stage == Working(was.run, was.gate)
      && |later.rows| == |s.rows| && (forall i :: 0 <= i < |s.rows| && i != was.run ==> later.rows[i] == s.rows[i])
      && (was.gate.None? ==> later.rows == s.rows)
      && (was.gate.Some? ==>
            later.rows[was.run] == s.rows[was.run].(details := later.rows[was.run].details)
            && later.rows[was.run].details == Frozen(was.gate.value))
  {
  }

  /** A crash takes the process away and frees what it held; rows and output stay. */
  lemma CrashByFields(s: State, p: Pid)
    requires Enabled(s, Crash(p))
    ensures
      var later := Step(s, Crash(p));
      var stage := s.procs[p].stage;
      && later.rows == s.rows && later.output == s.output
      && (forall q :: q in later.procs <==> q in s.procs && q != p)
      && (forall q :: q in later.procs ==> later.procs[q] == s.procs[q])
      && (forall t :: t in later.lock ==> t in s.lock && later.lock[t] == s.lock[t])
      && (forall t :: t in s.lock && t !in later.lock <==>
            t in s.lock && t == s.procs[p].call.Goal() && !stage.Waiting? && !stage.Answered? && !stage.Ended?)
  {
  }

  /** A task that returns success, no data or a skip lets its process leave with
      its run and gate; any other end is raised. Only its own row changes. */
  lemma FinishByFields(s: State, p: Pid, outcome: Outcome, now: Instant)
    requires Enabled(s, Finish(p, outcome, now))
    ensures
      var later := Step(s, Finish(p, outcome, now));
      var was, run := s.procs[p].stage, s.procs[p].stage.run;
      && later.output == s.output && later.lock == s.lock
      && |later.rows| == |s.rows| && (forall i :: 0 <= i < |s.rows| && i != run ==> later.rows[i] == s.rows[i])
      && Ends(s.rows[run], outcome, now, later.rows[run])
      && (forall q :: q in later.procs <==> q in s.procs)
      && (forall q :: q in s.procs && q != p ==> later.procs[q] == s.procs[q])
      && later.procs[p].call == s.procs[p].call
      && later.procs[p].stage ==
         (if later.rows[run].status == Failed then Unwinding(Some(TaskRaised)) else Leaving(run, was.gate))
  {
    EndsAsFinished(s.rows[s.procs[p].stage.run], outcome, now,
      Finished(s.rows[s.procs[p].stage.run], outcome, now));
  }

  /** Output appears for the target of the working market process, and nothing else happens. */
  lemma CommitByFields(s: State, p: Pid)
    requires Enabled(s, Commit(p))
    ensures
      var later := Step(s, Commit(p));
      && (forall t :: t in later.output <==> t in s.output || t == Daily(s.procs[p].call.date))
      && later.rows == s.rows && later.procs == s.procs && later.lock == s.lock
  {
  }

  /** Letting go frees the target and answers with the run and gate, or with the error. */
  lemma ReleaseByFields(s: State, p: Pid)
    requires Enabled(s, Release(p))
    ensures
      var later := Step(s, Release(p));
      var was, now := s.procs[p].stage, later.procs[p].stage;
      && later.rows == s.rows && later.output == s.output
      && (forall t :: t in later.lock <==> t in s.lock && t != s.procs[p].call.Goal())
      && (forall t :: t in later.lock ==> later.lock[t] == s.lock[t])
      && (forall q :: q in later.procs <==> q in s.procs)
      && (forall q :: q in s.procs && q != p ==> later.procs[q] == s.procs[q])
      && later.procs[p].call == s.procs[p].call
      && (was.Leaving? ==> now.Answered? && now.run == was.run && now.gate == was.gate)
      && (was.Unwinding? ==> now.Ended? && now.error == was.error)
  {
  }

  /** The closing comparison passes exactly the runs whose success records the gate. */
  lemma FinalCheckExactly(rows: Table, run: nat, gate: bool)
    requires run < |rows|
    ensures FinalCheck(rows, run, Some(gate)).None? <==> FrozenGateForRun(rows, run) == Ok(gate)
    ensures FinalCheck(rows, run, None).None?
    ensures FinalCheck(rows, run, Some(gate)) == Some(FinalGateMismatch) <==> FrozenGateForRun(rows, run) == Ok(!gate)
  {
    if FrozenGateForRun(rows, run).Ok? && FrozenGateForRun(rows, run).value != gate {
      assert FrozenGateForRun(rows, run).value == !gate;
    }
  }

  /** A market process told which gate to use stands nowhere with the other one. */
  predicate KeepsToCall(proc: Process) {
    proc.call.Market? && proc.call.explicit.Some? ==>
      match proc.stage
      case Resolved(grant) => grant.gate == proc.call.explicit.value
      case Ready(_, gate) => gate == proc.call.explicit
      case Working(_, gate) => gate == proc.call.explicit
      case Leaving(_, gate) => gate == proc.call.explicit
      case Answered(_, gate) => gate == proc.call.explicit
      case _ => true
  }

  lemma StepKeepsToCall(s: State, e: Event, p: Pid)
    requires Enabled(s, e) && (forall q :: At(s, q) ==> KeepsToCall(s.procs[q])) && At(Step(s, e), p)
    ensures KeepsToCall(Step(s, e).procs[p])
  {
    if e.Gate? && e.p == p {
      var call := s.procs[p].call;
      var output := call.Goal() in s.output;
      RefusedExactly(s.rows, call.Goal(), call.Wanted(), output);
      if Refusal(s.rows, call.Goal(), call.Wanted(), output).None? {
        GrantFollowsRows(s.rows, call.Goal(), call.Wanted(), output, e.sampled);
      }
    }
  }

  /** However the processes interleave, an explicit gate is used or refused, never replaced. */
  lemma {:induction false} ExplicitGateIsHonoured(trace: seq<Event>, p: Pid)
    requires Possible(trace) && At(After(trace), p)
    ensures KeepsToCall(After(trace).procs[p])
  {
    if trace != [] {
      var front := trace[..|trace| - 1];
      forall q | At(After(front), q) ensures KeepsToCall(After(front).procs[q]) {
        ExplicitGateIsHonoured(front, q);
      }
      StepKeepsToCall(After(front), trace[|trace| - 1], p);
    }
  }

  /** A reservation asks for its caller, and the market job for itself. */
  function AskOf(call: Call): Ask
    requires !call.Job?
  {
    if call.Reserve? then Ask(call.explicit, call.owner, None) else Ask(call.explicit, ByDaily, call.expected)
  }

  /** The gate follows the rows and is the only one they hold from then on. */
  ghost predicate Granted(rows: Table, later: Table, t: Target, ask: Ask, sampled: bool, grant: Grant) {
    && GateFollows(rows, t, ask.explicit, sampled, grant.gate) && Reserves(rows, later, t, ask, grant)
    && Holds(later, t, grant.gate) && !Holds(later, t, !grant.gate)
  }

  /** Whenever a process asks for the gate of its target, it is refused and the
      table stays, or it finds the target's rows admissible and the gate it gets
      follows them; a first market call that names none freezes the provider setting. */
  lemma GateStepFollowsRows(trace: seq<Event>, p: Pid, sampled: bool)
    requires Possible(trace) && Enabled(After(trace), Gate(p, sampled))
    ensures
      var s := After(trace);
      var later := Step(s, Gate(p, sampled));
      var call := s.procs[p].call;
      var t, ask := Daily(call.date), AskOf(call);
      var stage := later.procs[p].stage;
      && (Admissible(s.rows, t, ask, t in s.output) <==> stage == Unwinding(None) || stage.Resolved?)
      && (!Admissible(s.rows, t, ask, t in s.output) ==> later.rows == s.rows)
      && (stage.Resolved? ==> call.Market? && Granted(s.rows, later.rows, t, ask, sampled, stage.grant))
      && (stage == Unwinding(None) ==>
            call.Reserve? && exists grant :: Granted(s.rows, later.rows, t, ask, sampled, grant))
  {
    var s := After(trace);
    var later := Step(s, Gate(p, sampled));
    var call := s.procs[p].call;
    var t, ask := Daily(call.date), AskOf(call);
    var output := t in s.output;
    assert call.Goal() == t && call.Wanted() == ask;
    RefusedExactly(s.rows, t, ask, output);
    if Admissible(s.rows, t, ask, output) {
      GrantFollowsRows(s.rows, t, ask, output, sampled);
      GrantReserves(s.rows, t, ask, output, sampled);
      var gate := GrantOf(s.rows, t, ask, output, sampled).gate;
      Reachable(trace);
      GateAccepted(s.rows, t, ask, output, sampled);
      NoConflict(later.rows, t);
      HoldsMeansRecords(later.rows, t, gate);
      HoldsMeansRecords(later.rows, t, !gate);
      assert Granted(s.rows, later.rows, t, ask, sampled, GrantOf(s.rows, t, ask, output, sampled));
    }
  }

  /** A task body starts only while its target has no SUCCESS and no other
      task body of that target is under way. */
  lemma NoTaskStartsAfterSuccess(trace: seq<Event>, p: Pid)
    requires Possible(trace) && Enabled(After(trace), Launch(p))
    ensures var s := After(trace);
      var t := s.procs[p].call.Goal();
      && !HasSuccess(s.rows, t)
      && forall q :: At(s, q) && s.procs[q].stage.Working? ==> s.procs[q].call.Goal() != t
  {
    Reachable(trace);
    var s := After(trace);
    assert StageFits(s.rows, s.procs[p]);
  }

  // ---------------------------------------------------------------------
  // Terminal rows and reservations over time
  // ---------------------------------------------------------------------

  ghost predicate Lasts(rows: Table, later: Table) {
    && |rows| <= |later|
    && forall i: nat :: i < |rows| && rows[i].status != Running ==> later[i] == rows[i]
  }

  lemma GateEvolves(s: State, p: Pid, sampled: bool)
    requires Inv(s) && Enabled(s, Gate(p, sampled))
    ensures Evolves(s.rows, Step(s, Gate(p, sampled)).rows, s.procs[p].call.Goal())
  {
    var call := s.procs[p].call;
    var output := call.Goal() in s.output;
    if Refusal(s.rows, call.Goal(), call.Wanted(), output).None? {
      GateAccepted(s.rows, call.Goal(), call.Wanted(), output, sampled);
    }
  }

  lemma OpenEvolves(s: State, p: Pid, now: Instant)
    requires Inv(s) && Enabled(s, Open(p, now))
    ensures Evolves(s.rows, Step(s, Open(p, now)).rows, s.procs[p].call.Goal())
  {
    var proc := s.procs[p];
    var t := proc.call.Goal();
    var reserved := if proc.stage.Resolved? then proc.stage.grant.reservation else None;
    assert StageFits(s.rows, proc);
    if HasSuccess(s.rows, t) {
      OpenSkips(s.rows, t, reserved, now);
    } else if proc.stage.Resolved? {
      OpenConsumes(s.rows, t, reserved.value, now);
    } else {
      OpenCreates(s.rows, t, now);
    }
  }

  lemma StepEvolves(s: State, e: Event)
    requires Inv(s) && Enabled(s, e)
    ensures e.Begin? ==> Step(s, e).rows == s.rows
    ensures !e.Begin? ==> Evolves(s.rows, Step(s, e).rows, s.procs[e.p].call.Goal())
  {
    match e {
      case Gate(p, sampled) => GateEvolves(s, p, sampled);
      case Open(p, now) => OpenEvolves(s, p, now);
      case Launch(p) => assert StageFits(s.rows, s.procs[p]);
      case Finish(p, outcome, now) => assert StageFits(s.rows, s.procs[p]);
      case _ =>
    }
  }

  lemma {:induction false} PossiblePrefix(trace: seq<Event>, k: nat)
    requires Possible(trace) && k <= |trace|
    ensures Possible(trace[..k])
  {
    if k < |trace| {
      PossiblePrefix(trace[..|trace| - 1], k);
      assert trace[..|trace| - 1][..k] == trace[..k];
    } else {
      assert trace[..k] == trace;
    }
  }

  /** Once a row is terminal, no continuation of the run changes anything in it. */
  lemma {:induction false} TerminalRowsArePermanent(trace: seq<Event>, k: nat)
    requires Possible(trace) && k <= |trace|
    ensures Possible(trace[..k]) && Lasts(After(trace[..k]).rows, After(trace).rows)
  {
    PossiblePrefix(trace, k);
    if k == |trace| {
      assert trace[..k] == trace;
    } else {
      var front := trace[..|trace| - 1];
      assert front[..k] == trace[..k];
      TerminalRowsArePermanent(front, k);
      Reachable(front);
      StepEvolves(After(front), trace[|trace| - 1]);
    }
  }

  /** The acting process was handed exactly this reservation. */
  predicate Presents(s: State, e: Event, r: nat) {
    At(s, e.p) && s.procs[e.p].call.Market? && s.procs[e.p].call.expected == Some(r)
  }

  /** Reservation `r` of `t` belongs to run `o`, which is still going. */
  predicate HeldFor(rows: Table, t: Target, r: nat, o: nat) {
    && Active(rows, t, r) && rows[r].details.owner == ByRun(o)
    && o < |rows| && rows[o].status == Running
  }

  lemma HeldAgainstGate(s: State, p: Pid, sampled: bool, t: Target, r: nat, o: nat)
    requires Inv(s) && Enabled(s, Gate(p, sampled)) && t.Daily? && HeldFor(s.rows, t, r, o)
    ensures Step(s, Gate(p, sampled)).rows[..|s.rows|][r] == s.rows[r]
  {
    GateEvolves(s, p, sampled);
    NoConflict(s.rows, t);
    assert ActiveOf(s.rows, t) == Some(r);
  }

  lemma OnlyReservation(rows: Table, t: Target, r: nat, q: nat)
    requires Sound(rows) && t.Daily? && Active(rows, t, r) && Active(rows, t, q)
    ensures r == q
  {
    NoConflict(rows, t);
  }

  /** Whoever is about to use a target's active reservation is entitled to it. */
  lemma HolderIsEntitled(rows: Table, proc: Process, r: nat)
    requires Sound(rows) && StageFits(rows, proc) && proc.call.Goal().Daily?
    requires Active(rows, proc.call.Goal(), r)
    requires proc.stage.Resolved? || proc.stage.Ready? || proc.stage.Working?
    ensures !proc.stage.Working? && proc.call.Market? && Entitled(rows, proc.call, r)
  {
    NoConflict(rows, proc.call.Goal());
    match proc.stage {
      case Resolved(grant) => OnlyReservation(rows, proc.call.Goal(), r, grant.reservation.value);
      case Ready(run, gate) => OnlyReservation(rows, proc.call.Goal(), r, run);
      case _ =>
    }
  }

  /** Nobody adopts, consumes or closes a reservation while its owner runs,
      except through a market job that was handed that very reservation. */
  lemma HeldWhileOwnerRuns(s: State, e: Event, t: Target, r: nat, o: nat)
    requires Inv(s) && Enabled(s, e) && t.Daily? && HeldFor(s.rows, t, r, o) && !Presents(s, e, r)
    ensures r < |Step(s, e).rows| && Step(s, e).rows[r] == s.rows[r]
  {
    StepEvolves(s, e);
    if !e.Begin? && s.procs[e.p].call.Goal() == t {
      if e.Gate? {
        HeldAgainstGate(s, e.p, e.sampled, t, r, o);
      } else if e.Open? || e.Launch? || e.Finish? {
        HolderIsEntitled(s.rows, s.procs[e.p], r);
      }
    }
  }

  /** The same over a whole continuation: the reservation of a run that is
      still RUNNING at the end was never touched. */
  lemma {:induction false} ReservationOutlastsOthers(trace: seq<Event>, k: nat, t: Target, r: nat, o: nat)
    requires Possible(trace) && k <= |trace| && t.Daily?
    requires Possible(trace[..k]) && HeldFor(After(trace[..k]).rows, t, r, o)
    requires o < |After(trace).rows| && After(trace).rows[o].status == Running
    requires forall m: nat :: k <= m < |trace| && Possible(trace[..m]) ==> !Presents(After(trace[..m]), trace[m], r)
    ensures HeldFor(After(trace).rows, t, r, o)
    ensures After(trace).rows[r] == After(trace[..k]).rows[r]
  {
    if k == |trace| {
      assert trace[..k] == trace;
    } else {
      var front := trace[..|trace| - 1];
      assert front[..k] == trace[..k];
      TerminalRowsArePermanent(front, k);
      Reachable(front);
      StepEvolves(After(front), trace[|trace| - 1]);
      forall m: nat | k <= m < |front| && Possible(front[..m])
        ensures !Presents(After(front[..m]), front[m], r)
      {
        assert front[..m] == trace[..m];
      }
      ReservationOutlastsOthers(front, k, t, r, o);
      HeldWhileOwnerRuns(After(front), trace[|trace| - 1], t, r, o);
    }
  }

  // ---------------------------------------------------------------------
  // A run that succeeds
  // ---------------------------------------------------------------------

  lemma Extend(trace: seq<Event>, e: Event)
    requires Possible(trace) && Enabled(After(trace), e)
    ensures Possible(trace + [e]) && After(trace + [e]) == Step(After(trace), e)
  {
    assert (trace + [e])[..|trace + [e]| - 1] == trace;
  }

  /** Process 0 alone, holding its target's lock. */
  function Solo(rows: Table, call: Call, stage: Stage): State {
    State(rows, map[0 := Process(call, stage)], map[call.Goal() := 0], {})
  }

  lemma SoloStarts(call: Call)
    ensures Possible([Begin(0, call), Acquire(0)])
    ensures After([Begin(0, call), Acquire(0)]) == Solo([], call, Locked)
  {
    Extend([], Begin(0, call));
    assert [] + [Begin(0, call)] == [Begin(0, call)];
    Extend([Begin(0, call)], Acquire(0));
    assert [Begin(0, call)] + [Acquire(0)] == [Begin(0, call), Acquire(0)];
  }

  lemma SoloReserves(call: Call, gate: bool, sampled: bool)
    requires call.Market? && call.explicit == Some(gate) && call.expected.None?
    ensures Enabled(Solo([], call, Locked), Gate(0, sampled))
    ensures Step(Solo([], call, Locked), Gate(0, sampled)) ==
      Solo([Reserved(call.Goal(), 1, ByDaily, gate)], call, Resolved(Grant(gate, Some(0), false)))
  {
    var t := call.Goal();
    assert forall i: nat :: !Of([], t, i);
    assert ActiveOf([], t) == None && LatestAttempt([], t) == 0;
    assert [] + [Reserved(t, 1, ByDaily, gate)] == [Reserved(t, 1, ByDaily, gate)];
  }

  lemma SoloOpens(call: Call, gate: bool, now: Instant)
    requires call.Market?
    ensures var rows := [Reserved(call.Goal(), 1, ByDaily, gate)];
      var s := Solo(rows, call, Resolved(Grant(gate, Some(0), false)));
      Enabled(s, Open(0, now)) && Step(s, Open(0, now)) == Solo(rows, call, Ready(0, Some(gate)))
  {
    var rows := [Reserved(call.Goal(), 1, ByDaily, gate)];
    assert forall i: nat :: !Succeeded(rows, call.Goal(), i);
    assert FailStale(rows, call.Goal(), Some(0), now) == rows;
  }

  lemma SoloFinishes(call: Call, gate: bool, now: Instant)
    requires call.Market?
    ensures var row := Reserved(call.Goal(), 1, ByDaily, gate);
      var started := row.(details := Frozen(gate));
      var outcome := Returns(Success, Frozen(gate));
      && Enabled(Solo([row], call, Ready(0, Some(gate))), Launch(0))
      && Step(Solo([row], call, Ready(0, Some(gate))), Launch(0)) == Solo([started], call, Working(0, Some(gate)))
      && Enabled(Solo([started], call, Working(0, Some(gate))), Finish(0, outcome, now))
      && Step(Solo([started], call, Working(0, Some(gate))), Finish(0, outcome, now))
         == Solo([Closed(started, Success, now)], call, Leaving(0, Some(gate)))
  {
  }

  ghost predicate Reaches(trace: seq<Event>, s: State) {
    Possible(trace) && After(trace) == s
  }

  ghost predicate Reached(s: State) {
    exists trace :: Reaches(trace, s)
  }

  lemma ThenReached(s: State, e: Event)
    requires Reached(s) && Enabled(s, e)
    ensures Reached(Step(s, e))
  {
    var trace :| Reaches(trace, s);
    Extend(trace, e);
    assert Reaches(trace + [e], Step(s, e));
  }

  lemma ReservedIsReached(call: Call, gate: bool)
    requires call.Market? && call.explicit == Some(gate) && call.expected.None?
    ensures Reached(Solo([Reserved(call.Goal(), 1, ByDaily, gate)], call, Resolved(Grant(gate, Some(0), false))))
  {
    SoloStarts(call);
    assert Reaches([Begin(0, call), Acquire(0)], Solo([], call, Locked));
    SoloReserves(call, gate, gate);
    ThenReached(Solo([], call, Locked), Gate(0, gate));
  }

  lemma ReadyIsReached(call: Call, gate: bool, now: Instant)
    requires call.Market? && call.explicit == Some(gate) && call.expected.None?
    ensures Reached(Solo([Reserved(call.Goal(), 1, ByDaily, gate)], call, Ready(0, Some(gate))))
  {
    ReservedIsReached(call, gate);
    SoloOpens(call, gate, now);
    ThenReached(Solo([Reserved(call.Goal(), 1, ByDaily, gate)], call, Resolved(Grant(gate, Some(0), false))),
      Open(0, now));
  }

  /** From no rows a market job can run to a SUCCESS that carries its gate. */
  lemma SuccessIsReachable(date: int, gate: bool, now: Instant)
    ensures exists s :: Reached(s) && Records(s.rows, Daily(date), gate, 0) && Succeeded(s.rows, Daily(date), 0)
  {
    var call := Market(date, Some(gate), None);
    var row := Reserved(call.Goal(), 1, ByDaily, gate);
    var started := row.(details := Frozen(gate));
    ReadyIsReached(call, gate, now);
    SoloFinishes(call, gate, now);
    ThenReached(Solo([row], call, Ready(0, Some(gate))), Launch(0));
    ThenReached(Solo([started], call, Working(0, Some(gate))), Finish(0, Returns(Success, Frozen(gate)), now));
    assert Reached(Solo([Closed(started, Success, now)], call, Leaving(0, Some(gate))));
  }
}
