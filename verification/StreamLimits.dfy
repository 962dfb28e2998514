/**
 Why the delivery theorems carry the hypotheses they do: runs of the very same steps in which an agent is wrong
 because one hypothesis fails.
 */
module StreamLimits {
  import opened Base
  import opened Decisions
  import opened Delivery
  import opened AtomicPulls

  function Ban(expiresAt: Time): Draft {
    Draft(LOCAL, "ban", "Ip", "192.0.2.1", DAY, None, None, false, expiresAt)
  }

  /**
   A row created between a pull's new select and its cursor write is stamped no later than the new cursor. It is live,
   yet neither that pull nor the next delta pull tells the agent of it.
   */
  lemma GapSkipsWrite(m: MachineId, u: Uuid, t0: Time, t1: Time, w: Time, t2: Time, t3: Time, t4: Time)
    returns (steps: seq<Step>)
    requires 0 <= t0 <= t1 < w <= t2 <= t3 <= t4
    ensures Exec(steps).Some?
    ensures var s := Exec(steps).value;
            && u in s.rows && Live(s.rows[u], t4)
            && AgentOf(s, m).cursor == Some(t4) && AgentOf(s, m).held == {}
  {
    var ban := Ban(t4 + 1);
    var g3, s3 := SelectedNothing(m, t0, t1);
    var g4 := Taken(s3, g3, Step.Write(Create(u, ban), w));
    var s4 := Next(s3, Step.Write(Create(u, ban), w));
    assert s4.rows == map[u := Inserted(ban, w)];
    var g5 := Taken(s4, g4, SelectDeleted(m, t2));
    var s5 := Next(s4, SelectDeleted(m, t2));
    assert AgentOf(s5, m).phase == DeletedTaken(t0, t1, {}, t2, {});
    var g6 := Taken(s5, g5, Finish(m, t3));
    var s6 := Next(s5, Finish(m, t3));
    assert AgentOf(s6, m).held == {} && AgentOf(s6, m).cursor == Some(t3);
    steps := Pulled(s6, g6, m, false, t4);
    assert NewSince(s6.rows, t3, t4) == {};
  }

  /**
   A row deleted between a delta pull's deleted select and its cursor write is stamped no later than the new cursor.
   The agent held it, and goes on holding it: neither that pull nor the next delta pull tells of the deletion.
   */
  lemma GapSkipsDeletion(m: MachineId, u: Uuid, t1: Time, t2: Time, w: Time, t3: Time, t4: Time)
    returns (steps: seq<Step>)
    requires 2 <= t1 <= t2 < w <= t3 <= t4
    ensures Exec(steps).Some?
    ensures var s := Exec(steps).value;
            && u in s.rows && s.rows[u].isDeleted && s.rows[u].updatedAt == w
            && AgentOf(s, m).cursor == Some(t4) && u in AgentOf(s, m).held
  {
    var moves, s2 := Holding(m, u, t4 + 1);
    var g3, s3 := SelectedNone(m, u, t4 + 1, StepsOf(moves), s2, t1, t2);
    var g4 := Taken(s3, g3, Step.Write(Delete(u), w));
    var s4 := Next(s3, Step.Write(Delete(u), w));
    assert s4.rows == map[u := SoftDeleted(Inserted(Ban(t4 + 1), 1), w)];
    var g5 := Taken(s4, g4, Finish(m, t3));
    var s5 := Next(s4, Finish(m, t3));
    assert u in AgentOf(s5, m).held && AgentOf(s5, m).cursor == Some(t3);
    steps := Pulled(s5, g5, m, false, t4);
    assert DeletedSince(s5.rows, t3) == {};
  }

  /** A machine that holds the only row has taken both selects of a delta pull, and found nothing. */
  lemma SelectedNone(
    m: MachineId, u: Uuid, expiresAt: Time, run: seq<Step>, s: System, t1: Time, t2: Time)
    returns (steps: seq<Step>, s': System)
    requires Exec(run) == Some(s) && s.now == 2 <= t1 <= t2 && s.rows == map[u := Inserted(Ban(expiresAt), 1)]
    requires AgentOf(s, m).cursor == Some(2) && AgentOf(s, m).held == {u} && AgentOf(s, m).phase.Idle?
    ensures Exec(steps) == Some(s') && s'.now == t2 && s'.rows == s.rows && AgentOf(s', m).held == {u}
    ensures AgentOf(s', m).phase == DeletedTaken(2, t1, {}, t2, {})
  {
    var g1 := Taken(s, run, Begin(m, false, t1));
    var s1 := Next(s, Begin(m, false, t1));
    assert NewSince(s.rows, 2, t1) == {} && DeletedSince(s.rows, 2) == {};
    var g2 := Taken(s1, g1, SelectNew(m, t1));
    var s2 := Next(s1, SelectNew(m, t1));
    steps := Taken(s2, g2, SelectDeleted(m, t2));
    s' := Next(s2, SelectDeleted(m, t2));
  }

  /** A machine with an empty snapshot is halfway through a delta pull of an empty table. */
  lemma SelectedNothing(m: MachineId, t0: Time, t1: Time) returns (steps: seq<Step>, s: System)
    requires 0 <= t0 <= t1
    ensures Exec(steps) == Some(s) && s.now == t1 && s.rows == map[]
    ensures AgentOf(s, m) == Agent(Some(t0), {}, NewTaken(false, Some(t0), t1, {}),
                                  {Gap(t0, t0)}, {Gap(t0, t0)}, {}, t0)
  {
    var p1 := Pulled(INITIAL, [], m, true, t0);
    var s1 := MoveNext(INITIAL, Pull(m, true, t0));
    assert Snapshot(map[], t0) == {};
    assert AgentOf(s1, m) == Agent(Some(t0), {}, Idle, {Gap(t0, t0)}, {Gap(t0, t0)}, {}, t0);
    var g1 := Taken(s1, p1, Begin(m, false, t1));
    var s2 := Next(s1, Begin(m, false, t1));
    assert AgentOf(s2, m).phase == Began(false, Some(t0));
    assert NewSince(s2.rows, t0, t1) == {};
    steps := Taken(s2, g1, SelectNew(m, t1));
    s := Next(s2, SelectNew(m, t1));
  }

  /** Appends one step to a run. */
  lemma Taken(s: System, steps: seq<Step>, step: Step) returns (more: seq<Step>)
    requires Exec(steps) == Some(s) && Enabled(s, step)
    ensures Exec(more) == Some(Next(s, step))
  {
    ExecSnoc(steps, step);
    more := steps + [step];
  }

  /** Appends one atomic pull to a run. */
  lemma Pulled(s: System, steps: seq<Step>, m: MachineId, full: bool, t: Time) returns (more: seq<Step>)
    requires Exec(steps) == Some(s) && AgentOf(s, m).phase.Idle? && s.now <= t
    ensures Exec(more) == Some(MoveNext(s, Pull(m, full, t)))
  {
    ExecPull(steps, m, full, t);
    more := steps + MoveSteps(s, Pull(m, full, t));
  }

  /**
   An agent that stays away for more than 90 days after a deletion can be left holding a purged uuid by every later
   delta pull, with atomic pulls and no expiry involved.
   */
  lemma LateAgentKeepsPurged(m: MachineId, u: Uuid, d: Time, p: Time, t: Time)
    returns (moves: seq<Move>)
    requires 2 < d && d + RETENTION < p <= t
    ensures RunMoves(moves).Some?
    ensures var s := RunMoves(moves).value;
            u !in s.rows && AgentOf(s, m).cursor == Some(t) && u in AgentOf(s, m).held
  {
    var m3, s3 := HeldThenDeleted(m, u, t + 1, d);
    var m4 := Moved(s3, m3, Change(Purge, p));
    var s4 := MoveNext(s3, Change(Purge, p));
    assert s4.rows == map[];
    moves := Moved(s4, m4, Pull(m, false, t));
    assert u in AgentOf(MoveNext(s4, Pull(m, false, t)), m).held;
  }

  /** An agent pulls the only row there is. */
  lemma Holding(m: MachineId, u: Uuid, expiresAt: Time) returns (moves: seq<Move>, s: System)
    requires 2 < expiresAt
    ensures RunMoves(moves) == Some(s) && s.now == 2 && s.rows == map[u := Inserted(Ban(expiresAt), 1)]
    ensures AgentOf(s, m).cursor == Some(2) && AgentOf(s, m).held == {u} && AgentOf(s, m).phase.Idle?
  {
    assert StepsOf([]) == [];
    var m1 := Moved(INITIAL, [], Change(Create(u, Ban(expiresAt)), 1));
    var s1 := MoveNext(INITIAL, Change(Create(u, Ban(expiresAt)), 1));
    assert s1.rows == map[u := Inserted(Ban(expiresAt), 1)];
    moves := Moved(s1, m1, Pull(m, true, 2));
    s := MoveNext(s1, Pull(m, true, 2));
    assert Snapshot(s1.rows, 2) == {u};
  }

  /** An agent pulls a row, which is then deleted. */
  lemma HeldThenDeleted(m: MachineId, u: Uuid, expiresAt: Time, d: Time)
    returns (moves: seq<Move>, s: System)
    requires 2 < d && 2 < expiresAt
    ensures RunMoves(moves) == Some(s) && s.now == d
    ensures s.rows == map[u := SoftDeleted(Inserted(Ban(expiresAt), 1), d)]
    ensures AgentOf(s, m).cursor == Some(2) && u in AgentOf(s, m).held
  {
    var m2, s2 := Holding(m, u, expiresAt);
    moves := Moved(s2, m2, Change(Delete(u), d));
    s := MoveNext(s2, Change(Delete(u), d));
  }

  lemma Moved(s: System, moves: seq<Move>, move: Move) returns (more: seq<Move>)
    requires RunMoves(moves) == Some(s) && MoveEnabled(s, move)
    ensures RunMoves(more) == Some(MoveNext(s, move))
  {
    MoveAppends(moves, move);
    more := moves + [move];
  }

  /** A write stamped exactly at a machine's cursor is in neither delta select. */
  lemma TiedWriteIsSkipped(rows: Table, u: Uuid, c: Time, now: Time)
    requires TableOk(rows, now) && u in rows && rows[u].updatedAt == c
    ensures u !in NewSince(rows, c, now) + DeletedSince(rows, c)
  {
  }
}
