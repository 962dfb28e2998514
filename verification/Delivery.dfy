/**
 Pulls of the decision stream, interleaved statement by statement with the writers and with each other.

 A pull is up to four statements: read the cursor, select the new rows (t1), select the deleted rows (t2),
 write the cursor (t3). Between any two of them any writer may run, and so may the pulls of other machines;
 the pulls of one machine are sequential. The agent then applies the answer by uuid. A pull may also fail at any
 of its statements, which leaves the cursor and the agent as they were.
 */
module Delivery {
  import opened Base
  import opened Decisions

  /** How far a machine's pull has got. A mode of None is a startup pull; Some(c) is a delta from cursor c. */
  datatype Phase =
    | Idle
    | Began(fullRequested: bool, mode: Option<Time>)
    | NewTaken(fullRequested: bool, mode: Option<Time>, newAt: Time, added: set<Uuid>)
    | DeletedTaken(cursor: Time, newAt: Time, added: set<Uuid>, deletedAt: Time, removed: set<Uuid>)

  /** The instants after lo and up to hi. */
  datatype Gap = Gap(lo: Time, hi: Time)

  /**
   One machine: the server's cursor for it, the uuids its agent holds, and how far its current pull has got.
   The last four fields only record history for the theorems, from the machine's last startup pull on, itself included:
   the (t1, t3] of every pull, during which a new row can slip through;
   the (t2, t3] of every delta pull, during which a deletion can, and the (t1, t3] of the startup pull;
   the span (cursor, t2] of deletions that every delta pull asked for; and the t1 of the last pull.
   */
  datatype Agent = Agent(
    cursor: Option<Time>, held: set<Uuid>, phase: Phase,
    newGaps: set<Gap>, deletedGaps: set<Gap>, spans: set<Gap>, seenAt: Time)

  const NEWCOMER: Agent := Agent(None, {}, Idle, {}, {}, {}, 0)

  /** No pull since the last startup pull selected its deleted rows more than 90 days after its cursor. */
  predicate Punctual(a: Agent) {
    forall g :: g in a.spans ==> g.hi <= g.lo + RETENTION
  }

  /**
   lastStamp remembers, for every uuid ever written, the updated_at of its last write, even once it is purged;
   purgedAt remembers when a uuid was last purged, and lastSweep is the time of the last sweep.
   */
  datatype System = System(
    rows: Table, agents: map<MachineId, Agent>, now: Time,
    lastStamp: map<Uuid, Time>, purgedAt: map<Uuid, Time>, lastSweep: Option<Time>)

  const INITIAL: System := System(map[], map[], 0, map[], map[], None)

  datatype Step =
    | Write(write: Write, at: Time)
    | Begin(machine: MachineId, full: bool, at: Time)
    | SelectNew(machine: MachineId, at: Time)
    | SelectDeleted(machine: MachineId, at: Time)
    | Finish(machine: MachineId, at: Time)
    | Abort(machine: MachineId, at: Time)

  function AgentOf(s: System, m: MachineId): Agent {
    if m in s.agents then s.agents[m] else NEWCOMER
  }

  /** A write is stamped later than everything before it; the statements of a pull may share an instant. */
  predicate Enabled(s: System, step: Step) {
    match step
    case Write(_, t) => s.now < t
    case Begin(m, _, t) => s.now <= t && AgentOf(s, m).phase.Idle?
    case SelectNew(m, t) => s.now <= t && AgentOf(s, m).phase.Began?
    case SelectDeleted(m, t) =>
      s.now <= t && AgentOf(s, m).phase.NewTaken? && AgentOf(s, m).phase.mode.Some?
    case Finish(m, t) =>
      && s.now <= t
      && (AgentOf(s, m).phase.DeletedTaken? || (AgentOf(s, m).phase.NewTaken? && AgentOf(s, m).phase.mode.None?))
    case Abort(m, t) => s.now <= t && !AgentOf(s, m).phase.Idle?
  }

  function Remember(stamps: map<Uuid, Time>, rows: Table): map<Uuid, Time> {
    map u | u in stamps.Keys + rows.Keys :: if u in rows then rows[u].updatedAt else stamps[u]
  }

  function RememberPurges(purgedAt: map<Uuid, Time>, before: Table, after: Table, t: Time): map<Uuid, Time> {
    map u | u in purgedAt.Keys + (before.Keys - after.Keys) :: if u in before && u !in after then t else purgedAt[u]
  }

  /** A row that is deleted, or not there (any more). */
  predicate Gone(rows: Table, u: Uuid) {
    u !in rows || rows[u].isDeleted
  }

  function Started(a: Agent, full: bool): Agent {
    // Only a delta request reads the cursor; without one the pull falls back to startup.
    a.(phase := Began(full, if full then None else a.cursor))
  }

  function NewSelected(a: Agent, rows: Table, t: Time): Agent
    requires a.phase.Began?
  {
    var added := match a.phase.mode
      case None => Snapshot(rows, t)
      case Some(c) => NewSince(rows, c, t);
    a.(phase := NewTaken(a.phase.fullRequested, a.phase.mode, t, added))
  }

  function DeletedSelected(a: Agent, rows: Table, t: Time): Agent
    requires a.phase.NewTaken? && a.phase.mode.Some?
  {
    var c := a.phase.mode.value;
    a.(phase := DeletedTaken(c, a.phase.newAt, a.phase.added, t, DeletedSince(rows, c)))
  }

  /** What the agent will hold if its pull ends now: it applies New, then Deleted; a full pull replaces what it held. */
  function Pending(a: Agent): set<Uuid> {
    match a.phase
    case Idle => a.held
    case Began(_, _) => a.held
    case NewTaken(full, _, _, added) => if full then added else a.held + added
    case DeletedTaken(_, _, added, _, removed) => (a.held + added) - removed
  }

  /** The cursor write, after which the agent applies the answer. */
  function Finished(a: Agent, t: Time): Agent
    requires a.phase.DeletedTaken? || (a.phase.NewTaken? && a.phase.mode.None?)
  {
    match a.phase
    case NewTaken(_, _, t1, _) =>
      Agent(Some(t), Pending(a), Idle, {Gap(t1, t)}, {Gap(t1, t)}, {}, t1)
    case DeletedTaken(c, t1, _, t2, _) =>
      Agent(Some(t), Pending(a), Idle,
            a.newGaps + {Gap(t1, t)}, a.deletedGaps + {Gap(t2, t)}, a.spans + {Gap(c, t2)}, t1)
  }

  /** A statement fails or the request is cancelled: the agent gets an error, and the cursor stays. */
  function Aborted(a: Agent): Agent {
    a.(phase := Idle)
  }

  function Next(s: System, step: Step): System
    requires Enabled(s, step)
  {
    match step
    case Write(w, t) =>
      var rows := Apply(s.rows, w, t);
      s.(rows := rows, now := t, lastStamp := Remember(s.lastStamp, rows),
         purgedAt := RememberPurges(s.purgedAt, s.rows, rows, t),
         lastSweep := if w.Sweep? then Some(t) else s.lastSweep)
    case Begin(m, full, t) =>
      s.(agents := s.agents[m := Started(AgentOf(s, m), full)], now := t)
    case SelectNew(m, t) =>
      s.(agents := s.agents[m := NewSelected(AgentOf(s, m), s.rows, t)], now := t)
    case SelectDeleted(m, t) =>
      s.(agents := s.agents[m := DeletedSelected(AgentOf(s, m), s.rows, t)], now := t)
    case Finish(m, t) =>
      s.(agents := s.agents[m := Finished(AgentOf(s, m), t)], now := t)
    case Abort(m, t) =>
      s.(agents := s.agents[m := Aborted(AgentOf(s, m))], now := t)
  }

  /** A run from the empty system: None if some step is not enabled. */
  function Exec(steps: seq<Step>): Option<System> {
    if steps == [] then Some(INITIAL)
    else
      match Exec(steps[..|steps| - 1])
      case None => None
      case Some(s) => if Enabled(s, steps[|steps| - 1]) then Some(Next(s, steps[|steps| - 1])) else None
  }

  // ---------------------------------------------------------------- invariant

  ghost predicate StoreInv(s: System) {
    && TableOk(s.rows, s.now)
    && (forall u :: u in s.rows ==> u in s.lastStamp && s.lastStamp[u] == s.rows[u].updatedAt)
    && (forall u :: u in s.lastStamp ==> s.lastStamp[u] <= s.now)
    && PurgesOk(s.rows, s.now, s.lastStamp, s.purgedAt)
    && (s.lastSweep.Some? ==> s.lastSweep.value <= s.now)
    && (s.lastSweep.Some? ==> forall u :: u in s.rows && Expired(s.rows[u], s.lastSweep.value) ==>
                                          s.rows[u].updatedAt > s.lastSweep.value)
  }

  /** A uuid without a row was purged more than 90 days after its last write, which deleted it; any other was not. */
  ghost predicate PurgesOk(rows: Table, now: Time, lastStamp: map<Uuid, Time>, purgedAt: map<Uuid, Time>) {
    && (forall u :: u in purgedAt ==> purgedAt[u] <= now)
    && (forall u :: u in lastStamp && u !in rows ==> u in purgedAt && lastStamp[u] < purgedAt[u] - RETENTION)
    && (forall u :: u in lastStamp && u in rows && u in purgedAt ==> purgedAt[u] < lastStamp[u])
  }

  ghost predicate InGap(gaps: set<Gap>, t: Time) {
    exists g :: g in gaps && g.lo < t <= g.hi
  }

  /** The last write to u came by the cursor c and in none of the gaps. */
  ghost predicate Observed(s: System, gaps: set<Gap>, c: Time, u: Uuid) {
    u in s.lastStamp && s.lastStamp[u] <= c && !InGap(gaps, s.lastStamp[u])
  }

  /** The recorded history ends at the cursor. */
  ghost predicate HistoryOk(a: Agent, c: Time) {
    && a.seenAt <= c
    && (forall g :: g in a.newGaps + a.deletedGaps + a.spans ==> g.lo <= g.hi <= c)
    && Gap(a.seenAt, c) in a.newGaps
  }

  /** What the agent holds agrees with the table on every uuid whose last write its pulls could see. */
  ghost predicate Agrees(s: System, a: Agent) {
    match a.cursor
    case None => a.held == {} && a.newGaps == {} && a.deletedGaps == {} && a.spans == {}
    case Some(c) =>
      && c <= s.now
      && HistoryOk(a, c)
      && (forall u :: Observed(s, a.newGaps, c, u) && u in s.rows && Live(s.rows[u], a.seenAt) ==> u in a.held)
      && (Punctual(a) ==> forall u :: Observed(s, a.deletedGaps, c, u) && Gone(s.rows, u) ==> u !in a.held)
  }

  /** The new select of a pull in progress still tells the truth about rows not written since. */
  ghost predicate AddedOk(s: System, mode: Option<Time>, t1: Time, added: set<Uuid>) {
    && t1 <= s.now
    && (mode.Some? ==> mode.value <= t1)
    && added <= s.lastStamp.Keys
    && (forall u :: u in s.lastStamp && s.lastStamp[u] <= t1 && Gone(s.rows, u) ==> u !in added)
    && (forall u :: u in s.rows && u in s.lastStamp && s.lastStamp[u] <= t1 && Live(s.rows[u], t1) ==>
                      u in added || (mode.Some? && s.lastStamp[u] <= mode.value))
  }

  /** So does its deleted select. */
  ghost predicate RemovedOk(s: System, c: Time, t1: Time, t2: Time, removed: set<Uuid>) {
    && t1 <= t2 <= s.now
    && (forall u :: u in s.rows && u in s.lastStamp && s.lastStamp[u] <= t2 && !s.rows[u].isDeleted ==> u !in removed)
    && (t2 <= c + RETENTION ==>
          forall u :: u in s.lastStamp && c < s.lastStamp[u] <= t2 && Gone(s.rows, u) ==> u in removed)
  }

  ghost predicate PhaseOk(s: System, a: Agent) {
    match a.phase
    case Idle => true
    case Began(full, mode) => mode == if full then None else a.cursor
    case NewTaken(full, mode, t1, added) =>
      mode == (if full then None else a.cursor) && AddedOk(s, mode, t1, added)
    case DeletedTaken(c, t1, added, t2, removed) =>
      a.cursor == Some(c) && AddedOk(s, Some(c), t1, added) && RemovedOk(s, c, t1, t2, removed)
  }

  ghost predicate AgentInv(s: System, a: Agent) {
    a.held <= s.lastStamp.Keys && Agrees(s, a) && PhaseOk(s, a)
  }

  ghost predicate Inv(s: System) {
    StoreInv(s) && forall m :: m in s.agents ==> AgentInv(s, s.agents[m])
  }

  // ---------------------------------------------------------------- preservation

  lemma SweptStaysSwept(rows: Table, w: Write, t: Time, swept: Time)
    requires swept < t
    requires forall u :: u in rows && Expired(rows[u], swept) ==> rows[u].updatedAt > swept
    ensures var after := Apply(rows, w, t);
            forall u :: u in after && Expired(after[u], swept) ==> after[u].updatedAt > swept
  {
    WriteFrame(rows, w, t);
  }

  lemma StampsFollowWrite(s: System, w: Write, t: Time)
    requires StoreInv(s) && s.now < t
    ensures var s' := Next(s, Step.Write(w, t));
            && (forall u :: u in s'.rows ==> u in s'.lastStamp && s'.lastStamp[u] == s'.rows[u].updatedAt)
            && (forall u :: u in s'.lastStamp ==> s'.lastStamp[u] <= t)
  {
    WriteFrame(s.rows, w, t);
  }

  lemma PurgesFollowWrite(s: System, w: Write, t: Time)
    requires StoreInv(s) && s.now < t
    ensures var s' := Next(s, Step.Write(w, t)); PurgesOk(s'.rows, t, s'.lastStamp, s'.purgedAt)
  {
    var rows := Apply(s.rows, w, t);
    var s' := Next(s, Step.Write(w, t));
    WriteFrame(s.rows, w, t);
    forall u | u in s'.lastStamp && u !in rows
      ensures u in s'.purgedAt && s'.lastStamp[u] < s'.purgedAt[u] - RETENTION
    {
      if u in s.rows { assert Aged(s.rows[u], t) && RowOk(s.rows[u], s.now); }
    }
    forall u | u in s'.lastStamp && u in rows && u in s'.purgedAt ensures s'.purgedAt[u] < s'.lastStamp[u] {
      assert rows[u].updatedAt == t || (u in s.rows && rows[u] == s.rows[u]);
    }
  }

  lemma StoreInvWrite(s: System, w: Write, t: Time)
    requires StoreInv(s) && s.now < t
    ensures StoreInv(Next(s, Step.Write(w, t)))
  {
    LifecycleStep(s.rows, w, s.now, t);
    StampsFollowWrite(s, w, t);
    PurgesFollowWrite(s, w, t);
    if w.Sweep? {
      CleanerInvisible(s.rows, t, t, t);
      assert forall u :: u in Apply(s.rows, w, t) ==> !Expired(Apply(s.rows, w, t)[u], t);
    } else if s.lastSweep.Some? {
      SweptStaysSwept(s.rows, w, t, s.lastSweep.value);
    }
  }

  /** A uuid whose last write is old was not touched by the step, except perhaps by a purge. */
  lemma Untouched(s: System, w: Write, t: Time, u: Uuid)
    requires StoreInv(s) && s.now < t
    requires u in Next(s, Step.Write(w, t)).lastStamp && Next(s, Step.Write(w, t)).lastStamp[u] <= s.now
    ensures var s' := Next(s, Step.Write(w, t));
            && u in s.lastStamp && s'.lastStamp[u] == s.lastStamp[u]
            && (u in s'.rows ==> u in s.rows && s'.rows[u] == s.rows[u])
            && (Gone(s'.rows, u) ==> Gone(s.rows, u))
  {
    WriteFrame(s.rows, w, t);
  }

  ghost predicate KeptAsWas(s: System, s': System, u: Uuid) {
    && u in s.lastStamp && u in s'.lastStamp && s'.lastStamp[u] == s.lastStamp[u]
    && (u in s'.rows ==> u in s.rows && s'.rows[u] == s.rows[u])
    && (Gone(s'.rows, u) ==> Gone(s.rows, u))
  }

  lemma AgreesWrite(s: System, s': System, a: Agent)
    requires Agrees(s, a) && s.now <= s'.now
    requires forall u :: u in s'.lastStamp && s'.lastStamp[u] <= s.now ==> KeptAsWas(s, s', u)
    ensures Agrees(s', a)
  {
    if a.cursor.Some? {
      var c := a.cursor.value;
      forall u | Observed(s', a.newGaps, c, u) ensures Observed(s, a.newGaps, c, u) {
      }
      forall u | Observed(s', a.deletedGaps, c, u) ensures Observed(s, a.deletedGaps, c, u) {
      }
    }
  }

  lemma PhaseWrite(s: System, s': System, a: Agent)
    requires PhaseOk(s, a) && s.now <= s'.now && s.lastStamp.Keys <= s'.lastStamp.Keys
    requires forall u :: u in s'.lastStamp && s'.lastStamp[u] <= s.now ==> KeptAsWas(s, s', u)
    ensures PhaseOk(s', a)
  {
  }

  lemma AgentInvWrite(s: System, w: Write, t: Time, a: Agent)
    requires StoreInv(s) && s.now < t && AgentInv(s, a)
    ensures StoreInv(Next(s, Step.Write(w, t)))
    ensures AgentInv(Next(s, Step.Write(w, t)), a)
  {
    StoreInvWrite(s, w, t);
    var s' := Next(s, Step.Write(w, t));
    forall u | u in s'.lastStamp && s'.lastStamp[u] <= s.now
      ensures KeptAsWas(s, s', u)
    {
      Untouched(s, w, t, u);
    }
    AgreesWrite(s, s', a);
    PhaseWrite(s, s', a);
  }

  /** The table as it was, at a later time. */
  predicate OnlyTimePassed(s: System, s': System) {
    && s'.rows == s.rows && s'.lastStamp == s.lastStamp && s'.purgedAt == s.purgedAt && s'.lastSweep == s.lastSweep
    && s.now <= s'.now
  }

  lemma StoreInvTime(s: System, s': System)
    requires StoreInv(s) && OnlyTimePassed(s, s')
    ensures StoreInv(s')
  {
  }

  /** Nothing but time passes for the other agents while one machine pulls. */
  lemma AgentInvTime(s: System, s': System, a: Agent)
    requires StoreInv(s) && AgentInv(s, a) && OnlyTimePassed(s, s')
    ensures StoreInv(s') && AgentInv(s', a)
  {
    StoreInvTime(s, s');
    assert forall u :: u in s.lastStamp ==> KeptAsWas(s, s', u);
    AgreesWrite(s, s', a);
    PhaseWrite(s, s', a);
  }

  lemma FinishStartup(s: System, a: Agent, t: Time)
    requires StoreInv(s) && AgentInv(s, a) && s.now == t
    requires a.phase.NewTaken? && a.phase.mode.None?
    ensures AgentInv(s, Finished(a, t))
  {
    var b := Finished(a, t);
    assert b.held == a.phase.added;
    assert Gap(b.seenAt, t) in b.newGaps && b.deletedGaps == b.newGaps;
    forall u | Observed(s, b.newGaps, t, u)
      ensures s.lastStamp[u] <= b.seenAt
    {
    }
  }

  /** What a delta pull was shown, and what the earlier ones were. */
  lemma ObservedByDelta(s: System, a: Agent, t: Time, u: Uuid)
    requires PhaseOk(s, a) && Agrees(s, a) && s.now == t && a.phase.DeletedTaken?
    ensures var b := Finished(a, t);
            && (Observed(s, b.newGaps, t, u) ==>
                  && s.lastStamp[u] <= a.phase.newAt
                  && (s.lastStamp[u] <= a.phase.cursor ==> Observed(s, a.newGaps, a.phase.cursor, u)))
            && (Observed(s, b.deletedGaps, t, u) ==>
                  && s.lastStamp[u] <= a.phase.deletedAt
                  && (s.lastStamp[u] <= a.phase.cursor ==> Observed(s, a.deletedGaps, a.phase.cursor, u)))
  {
    var b := Finished(a, t);
    assert Gap(a.phase.newAt, t) in b.newGaps && (forall g :: g in a.newGaps ==> g in b.newGaps);
    assert Gap(a.phase.deletedAt, t) in b.deletedGaps && (forall g :: g in a.deletedGaps ==> g in b.deletedGaps);
  }

  lemma FinishDelta(s: System, a: Agent, t: Time)
    requires StoreInv(s) && AgentInv(s, a) && s.now == t
    requires a.phase.DeletedTaken?
    ensures AgentInv(s, Finished(a, t))
  {
    var b, c := Finished(a, t), a.phase.cursor;
    assert HistoryOk(b, t);
    assert Gap(c, a.phase.deletedAt) in b.spans && (forall g :: g in a.spans ==> g in b.spans);
    forall u | Observed(s, b.newGaps, t, u) && u in s.rows && Live(s.rows[u], b.seenAt) ensures u in b.held {
      ObservedByDelta(s, a, t, u);
    }
    forall u | Punctual(b) && Observed(s, b.deletedGaps, t, u) && Gone(s.rows, u) ensures u !in b.held {
      ObservedByDelta(s, a, t, u);
    }
  }

  lemma BeginKept(s: System, a: Agent, full: bool)
    requires AgentInv(s, a)
    ensures AgentInv(s, Started(a, full))
  {
  }

  lemma SelectNewKept(s: System, a: Agent)
    requires StoreInv(s) && AgentInv(s, a) && a.phase.Began?
    ensures AgentInv(s, NewSelected(a, s.rows, s.now))
  {
  }

  lemma SelectDeletedKept(s: System, a: Agent)
    requires StoreInv(s) && AgentInv(s, a) && a.phase.NewTaken? && a.phase.mode.Some?
    ensures AgentInv(s, DeletedSelected(a, s.rows, s.now))
  {
  }

  lemma AbortKept(s: System, a: Agent)
    requires AgentInv(s, a)
    ensures AgentInv(s, Aborted(a))
  {
  }

  /** The machine that pulls. */
  lemma PullerKept(s: System, step: Step, m: MachineId)
    requires StoreInv(s) && AgentInv(s, AgentOf(s, m)) && Enabled(s, step) && !step.Write?
    requires step.machine == m && step.at == s.now
    ensures AgentInv(s, Next(s, step).agents[m])
  {
    var a := AgentOf(s, m);
    match step
    case Begin(_, full, _) => BeginKept(s, a, full);
    case SelectNew(_, _) => SelectNewKept(s, a);
    case SelectDeleted(_, _) => SelectDeletedKept(s, a);
    case Finish(_, t) => if a.phase.NewTaken? { FinishStartup(s, a, t); } else { FinishDelta(s, a, t); }
    case Abort(_, _) => AbortKept(s, a);
  }

  lemma PreservedPull(s: System, step: Step)
    requires Inv(s) && Enabled(s, step) && !step.Write?
    ensures Inv(Next(s, step))
  {
    var m, s1, s' := step.machine, s.(now := step.at), Next(s, step);
    AgentInvTime(s, s1, AgentOf(s, m));
    PullerKept(s1, step, m);
    AgentInvTime(s1, s', s'.agents[m]);
    forall n | n in s'.agents ensures AgentInv(s', s'.agents[n]) {
      if n != m { AgentInvTime(s, s', s.agents[n]); }
    }
  }

  lemma Preserved(s: System, step: Step)
    requires Inv(s) && Enabled(s, step)
    ensures Inv(Next(s, step))
  {
    match step
    case Write(w, t) =>
      var s' := Next(s, step);
      StoreInvWrite(s, w, t);
      forall m | m in s'.agents ensures AgentInv(s', s'.agents[m]) {
        AgentInvWrite(s, w, t, s.agents[m]);
      }
    case _ => PreservedPull(s, step);
  }

  lemma {:induction false} Reachable(steps: seq<Step>)
    requires Exec(steps).Some?
    ensures Inv(Exec(steps).value)
  {
    if steps != [] {
      var before := steps[..|steps| - 1];
      Reachable(before);
      Preserved(Exec(before).value, steps[|steps| - 1]);
    }
  }

  // ---------------------------------------------------------------- theorems

  /** When the pull in progress selected the new rows. */
  function CurrentNewAt(s: System, m: MachineId): Time
    requires AgentOf(s, m).phase.NewTaken? || AgentOf(s, m).phase.DeletedTaken?
  {
    AgentOf(s, m).phase.newAt
  }

  /** When it selected the deleted rows; a startup pull tells of deletions by leaving rows out of its only select. */
  function CurrentDeletedAt(s: System, m: MachineId): Time
    requires AgentOf(s, m).phase.NewTaken? || AgentOf(s, m).phase.DeletedTaken?
  {
    if AgentOf(s, m).phase.DeletedTaken? then AgentOf(s, m).phase.deletedAt else AgentOf(s, m).phase.newAt
  }

  /** The gaps of the pulls before the one in progress, if that one does not start afresh. */
  function Earlier(s: System, m: MachineId, gaps: set<Gap>): set<Gap> {
    if AgentOf(s, m).phase.DeletedTaken? then gaps else {}
  }

  /**
   Interleaved delivery. After a pull of m, the agent is right about every uuid whose last write its pulls since the
   last startup pull could see. It holds the uuid if the row is undeleted and was unexpired at the new select, and the
   last write is stamped by then and in no earlier (t1, t3]. It does not hold the uuid if the row is deleted or purged,
   and the last write is stamped by the deleted select and in no earlier (t2, t3], if the pulls were punctual.
   */
  lemma InterleavedDelivery(steps: seq<Step>, m: MachineId, t3: Time, u: Uuid)
    requires Exec(steps + [Finish(m, t3)]).Some?
    ensures Exec(steps).Some? && Enabled(Exec(steps).value, Finish(m, t3))
    ensures var before, after := Exec(steps).value, Exec(steps + [Finish(m, t3)]).value;
            var t1, t2 := CurrentNewAt(before, m), CurrentDeletedAt(before, m);
            var a, b := AgentOf(before, m), AgentOf(after, m);
            u in after.lastStamp ==>
              && (after.lastStamp[u] <= t1 && !InGap(Earlier(before, m, a.newGaps), after.lastStamp[u]) ==>
                    u in after.rows && Live(after.rows[u], t1) ==> u in b.held)
              && (after.lastStamp[u] <= t2 && !InGap(Earlier(before, m, a.deletedGaps), after.lastStamp[u]) ==>
                    Punctual(b) && Gone(after.rows, u) ==> u !in b.held)
  {
    assert (steps + [Finish(m, t3)])[..|steps|] == steps;
    Reachable(steps + [Finish(m, t3)]);
    var before, after := Exec(steps).value, Exec(steps + [Finish(m, t3)]).value;
    assert AgentInv(after, AgentOf(after, m));
    Reachable(steps);
    assert AgentInv(before, AgentOf(before, m));
    if u in after.lastStamp && after.lastStamp[u] <= CurrentNewAt(before, m) &&
       !InGap(Earlier(before, m, AgentOf(before, m).newGaps), after.lastStamp[u])
    {
      assert Observed(after, AgentOf(after, m).newGaps, t3, u);
    }
    if u in after.lastStamp && after.lastStamp[u] <= CurrentDeletedAt(before, m) &&
       !InGap(Earlier(before, m, AgentOf(before, m).deletedGaps), after.lastStamp[u])
    {
      assert Observed(after, AgentOf(after, m).deletedGaps, t3, u);
    }
  }

  /** The same agreement holds at every later instant, until u is written again: writers and purges cannot undo it. */
  lemma AgreementLasts(steps: seq<Step>, m: MachineId, u: Uuid)
    requires Exec(steps).Some?
    ensures var s := Exec(steps).value;
            var a := AgentOf(s, m);
            a.cursor.Some? ==>
              && (Observed(s, a.newGaps, a.cursor.value, u) && u in s.rows && Live(s.rows[u], a.seenAt) ==> u in a.held)
              && (Observed(s, a.deletedGaps, a.cursor.value, u) && Punctual(a) && Gone(s.rows, u) ==> u !in a.held)
  {
    Reachable(steps);
    var s := Exec(steps).value;
    assert m in s.agents ==> AgentInv(s, s.agents[m]);
  }

  /** A pull in progress can fail at any instant: nothing is delivered or forgotten, and the machine can pull again. */
  lemma AbortLeavesAgent(steps: seq<Step>, m: MachineId, t: Time)
    requires Exec(steps).Some? && Exec(steps).value.now <= t && !AgentOf(Exec(steps).value, m).phase.Idle?
    ensures Exec(steps + [Abort(m, t)]).Some?
    ensures var s, s' := Exec(steps).value, Exec(steps + [Abort(m, t)]).value;
            && AgentOf(s', m) == AgentOf(s, m).(phase := Idle) && s'.rows == s.rows
            && forall full :: Enabled(s', Begin(m, full, t))
  {
    assert (steps + [Abort(m, t)])[..|steps|] == steps;
  }

  /** Purging never outruns delivery: a uuid written after a machine's cursor is still a row for 90 days after it. */
  lemma PurgeNeverOutruns(steps: seq<Step>, m: MachineId, u: Uuid)
    requires Exec(steps).Some?
    ensures var s := Exec(steps).value;
            var c := AgentOf(s, m).cursor;
            c.Some? && u in s.lastStamp && s.lastStamp[u] > c.value && s.now <= c.value + RETENTION ==> u in s.rows
  {
    Reachable(steps);
  }

  /** Every delta pull of m in the run selects its deleted rows at most 90 days after the cursor it starts from. */
  ghost predicate OnTime(steps: seq<Step>, m: MachineId) {
    forall i :: 0 <= i < |steps| && steps[i].SelectDeleted? && steps[i].machine == m && Exec(steps[..i]).Some? ==>
                  var c := AgentOf(Exec(steps[..i]).value, m).cursor;
                  c.Some? ==> steps[i].at <= c.value + RETENTION
  }

  /** Punctual so far, the pull in progress included. */
  predicate PunctualSoFar(a: Agent) {
    Punctual(a) && (a.phase.DeletedTaken? ==> a.phase.deletedAt <= a.phase.cursor + RETENTION)
  }

  lemma PunctualStep(s: System, step: Step, m: MachineId)
    requires Enabled(s, step) && PhaseOk(s, AgentOf(s, m)) && PunctualSoFar(AgentOf(s, m))
    requires step.SelectDeleted? && step.machine == m ==>
               var c := AgentOf(s, m).cursor; c.Some? ==> step.at <= c.value + RETENTION
    ensures PunctualSoFar(AgentOf(Next(s, step), m))
  {
  }

  /** A machine that is on time at every select is punctual throughout. */
  lemma {:induction false} OnTimeIsPunctual(steps: seq<Step>, m: MachineId)
    requires Exec(steps).Some? && OnTime(steps, m)
    ensures PunctualSoFar(AgentOf(Exec(steps).value, m))
  {
    if steps != [] {
      var k := |steps| - 1;
      var before := steps[..k];
      assert OnTime(before, m) by {
        forall i | 0 <= i < k ensures before[..i] == steps[..i] && before[i] == steps[i] {
        }
      }
      OnTimeIsPunctual(before, m);
      Reachable(before);
      var s := Exec(before).value;
      assert m in s.agents ==> AgentInv(s, s.agents[m]);
      PunctualStep(s, steps[k], m);
    }
  }
}
