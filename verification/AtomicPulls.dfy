/**
 Runs in which every pull is one indivisible event: then there are no gaps, and following the deltas gives an
 agent what the snapshot would have given it.
 */
module AtomicPulls {
  import opened Base
  import opened Decisions
  import opened Delivery

  datatype Move =
    | Change(write: Decisions.Write, at: Time)
    | Pull(machine: MachineId, full: bool, at: Time)

  /** The statements of one pull; only a delta pull selects deleted rows. */
  function PullSteps(a: Agent, m: MachineId, full: bool, t: Time): seq<Step> {
    if full || a.cursor.None?
    then [Begin(m, full, t), SelectNew(m, t), Finish(m, t)]
    else [Begin(m, full, t), SelectNew(m, t), SelectDeleted(m, t), Finish(m, t)]
  }

  function MoveSteps(s: System, move: Move): seq<Step> {
    match move
    case Change(w, t) => [Step.Write(w, t)]
    case Pull(m, full, t) => PullSteps(AgentOf(s, m), m, full, t)
  }

  /** The statements of a whole run of moves, each pull's statements adjacent and at one instant. */
  function StepsOf(moves: seq<Move>): seq<Step> {
    if moves == [] then []
    else
      var before := StepsOf(moves[..|moves| - 1]);
      match Exec(before)
      case None => before
      case Some(s) => before + MoveSteps(s, moves[|moves| - 1])
  }

  function RunMoves(moves: seq<Move>): Option<System> {
    Exec(StepsOf(moves))
  }

  /** What one pull leaves behind, said without its statements. */
  function Answered(s: System, a: Agent, full: bool, t: Time): Agent {
    if full || a.cursor.None? then
      var all := Snapshot(s.rows, t);
      Agent(Some(t), if full then all else a.held + all, Idle, {Gap(t, t)}, {Gap(t, t)}, {}, t)
    else
      var c := a.cursor.value;
      Agent(Some(t), (a.held + NewSince(s.rows, c, t)) - DeletedSince(s.rows, c), Idle,
            a.newGaps + {Gap(t, t)}, a.deletedGaps + {Gap(t, t)}, a.spans + {Gap(c, t)}, t)
  }

  predicate MoveEnabled(s: System, move: Move) {
    match move
    case Change(_, t) => s.now < t
    case Pull(_, _, t) => s.now <= t
  }

  function MoveNext(s: System, move: Move): System
    requires MoveEnabled(s, move)
  {
    match move
    case Change(w, t) => Next(s, Step.Write(w, t))
    case Pull(m, full, t) => s.(agents := s.agents[m := Answered(s, AgentOf(s, m), full, t)], now := t)
  }

  ghost predicate Quiet(s: System) {
    forall m :: m in s.agents ==> s.agents[m].phase.Idle? && NoGaps(s.agents[m])
  }

  ghost predicate NoGaps(a: Agent) {
    forall g :: g in a.newGaps + a.deletedGaps ==> g.lo == g.hi
  }

  lemma ExecSnoc(steps: seq<Step>, step: Step)
    ensures Exec(steps + [step]) ==
            match Exec(steps)
            case None => None
            case Some(s) => if Enabled(s, step) then Some(Next(s, step)) else None
  {
    assert (steps + [step])[..|steps|] == steps;
  }

  /** The statements of one pull, taken one after another. */
  lemma PullChain(s: System, m: MachineId, full: bool, t: Time)
    requires AgentOf(s, m).phase.Idle? && s.now <= t
    ensures Enabled(s, Begin(m, full, t))
    ensures Enabled(Next(s, Begin(m, full, t)), SelectNew(m, t))
    ensures var s2 := Next(Next(s, Begin(m, full, t)), SelectNew(m, t));
            if full || AgentOf(s, m).cursor.None?
            then Enabled(s2, Finish(m, t)) && Next(s2, Finish(m, t)) == MoveNext(s, Pull(m, full, t))
            else && Enabled(s2, SelectDeleted(m, t))
                 && Enabled(Next(s2, SelectDeleted(m, t)), Finish(m, t))
                 && Next(Next(s2, SelectDeleted(m, t)), Finish(m, t)) == MoveNext(s, Pull(m, full, t))
  {
    var a := AgentOf(s, m);
    var s1 := Next(s, Begin(m, full, t));
    assert s1.agents[m] == Started(a, full);
    var s2 := Next(s1, SelectNew(m, t));
    assert s2.agents[m] == NewSelected(Started(a, full), s.rows, t);
    var answer := Answered(s, a, full, t);
    if full || a.cursor.None? {
      assert Finished(s2.agents[m], t) == answer;
      assert Next(s2, Finish(m, t)).agents == s.agents[m := answer];
    } else {
      var s3 := Next(s2, SelectDeleted(m, t));
      assert s3.agents[m] == DeletedSelected(s2.agents[m], s.rows, t);
      assert Finished(s3.agents[m], t) == answer;
      assert Next(s3, Finish(m, t)).agents == s.agents[m := answer];
    }
  }

  lemma ExecPull(steps: seq<Step>, m: MachineId, full: bool, t: Time)
    requires Exec(steps).Some? && AgentOf(Exec(steps).value, m).phase.Idle?
    ensures var s := Exec(steps).value;
            Exec(steps + MoveSteps(s, Pull(m, full, t))) ==
            if s.now <= t then Some(MoveNext(s, Pull(m, full, t))) else None
  {
    var s := Exec(steps).value;
    var s1 := steps + [Begin(m, full, t)];
    var s2 := s1 + [SelectNew(m, t)];
    ExecSnoc(steps, Begin(m, full, t));
    ExecSnoc(s1, SelectNew(m, t));
    if s.now <= t { PullChain(s, m, full, t); }
    if full || AgentOf(s, m).cursor.None? {
      ExecSnoc(s2, Finish(m, t));
      assert s2 + [Finish(m, t)] == steps + MoveSteps(s, Pull(m, full, t));
    } else {
      ExecSnoc(s2, SelectDeleted(m, t));
      ExecSnoc(s2 + [SelectDeleted(m, t)], Finish(m, t));
      assert s2 + [SelectDeleted(m, t)] + [Finish(m, t)] == steps + MoveSteps(s, Pull(m, full, t));
    }
  }

  lemma QuietMove(s: System, move: Move)
    requires Quiet(s) && MoveEnabled(s, move)
    ensures Quiet(MoveNext(s, move))
  {
    if move.Pull? {
      var a := AgentOf(s, move.machine);
      var b := Answered(s, a, move.full, move.at);
      assert NoGaps(a) && b.phase.Idle?;
      assert forall g :: g in b.newGaps + b.deletedGaps ==>
                           g in a.newGaps + a.deletedGaps || g == Gap(move.at, move.at);
    }
  }

  lemma ExecMove(steps: seq<Step>, move: Move)
    requires Exec(steps).Some? && Quiet(Exec(steps).value)
    ensures var s := Exec(steps).value;
            Exec(steps + MoveSteps(s, move)) == if MoveEnabled(s, move) then Some(MoveNext(s, move)) else None
  {
    match move
    case Change(w, t) => ExecSnoc(steps, Step.Write(w, t));
    case Pull(m, full, t) => ExecPull(steps, m, full, t);
  }

  /** Running the statements of a run of moves is the same as making its moves one by one. */
  lemma {:induction false} MovesCompose(moves: seq<Move>)
    requires RunMoves(moves).Some?
    ensures Quiet(RunMoves(moves).value)
    ensures moves != [] ==>
              var before, last := moves[..|moves| - 1], moves[|moves| - 1];
              && RunMoves(before).Some? && MoveEnabled(RunMoves(before).value, last)
              && RunMoves(moves).value == MoveNext(RunMoves(before).value, last)
  {
    if moves != [] {
      var before, last := moves[..|moves| - 1], moves[|moves| - 1];
      assert Exec(StepsOf(before)).Some?;
      MovesCompose(before);
      ExecMove(StepsOf(before), last);
      QuietMove(RunMoves(before).value, last);
    }
  }

  lemma MoveAppends(moves: seq<Move>, last: Move)
    requires RunMoves(moves).Some? && MoveEnabled(RunMoves(moves).value, last)
    ensures RunMoves(moves + [last]) == Some(MoveNext(RunMoves(moves).value, last))
  {
    assert (moves + [last])[..|moves|] == moves;
    MovesCompose(moves);
    ExecMove(StepsOf(moves), last);
  }

  lemma NothingMissed(moves: seq<Move>, m: MachineId)
    requires RunMoves(moves).Some?
    ensures var a := AgentOf(RunMoves(moves).value, m);
            forall w :: !InGap(a.newGaps, w) && !InGap(a.deletedGaps, w)
  {
    MovesCompose(moves);
  }

  /** Every delta pull of m in the run comes at most 90 days after the cursor it starts from. */
  ghost predicate PullsOnTime(moves: seq<Move>, m: MachineId) {
    forall i :: 0 <= i < |moves| && moves[i].Pull? && moves[i].machine == m && !moves[i].full
                && RunMoves(moves[..i]).Some? && AgentOf(RunMoves(moves[..i]).value, m).cursor.Some? ==>
                  moves[i].at <= AgentOf(RunMoves(moves[..i]).value, m).cursor.value + RETENTION
  }

  lemma {:induction false} OnTimeIsNotLate(moves: seq<Move>, m: MachineId)
    requires RunMoves(moves).Some? && PullsOnTime(moves, m)
    ensures Punctual(AgentOf(RunMoves(moves).value, m))
  {
    if moves != [] {
      var k := |moves| - 1;
      MovesCompose(moves);
      forall i | 0 <= i < k ensures moves[..k][..i] == moves[..i] && moves[..k][i] == moves[i] {
      }
      OnTimeIsNotLate(moves[..k], m);
    }
  }

  /** Just after an atomic pull an agent agrees with the table on every uuid ever written. */
  lemma JustPulled(moves: seq<Move>, m: MachineId, full: bool, t: Time)
    requires RunMoves(moves + [Pull(m, full, t)]).Some?
    ensures var s := RunMoves(moves + [Pull(m, full, t)]).value;
            var held := AgentOf(s, m).held;
            && StoreInv(s) && s.now == t
            && (forall u :: u in Snapshot(s.rows, t) ==> u in held)
            && (Punctual(AgentOf(s, m)) ==> forall u :: u in held ==> u in s.rows && !s.rows[u].isDeleted)
  {
    var pulled := moves + [Pull(m, full, t)];
    assert pulled[..|moves|] == moves;
    MovesCompose(pulled);
    Reachable(StepsOf(pulled));
    var s := RunMoves(pulled).value;
    NothingMissed(pulled, m);
    var a := AgentOf(s, m);
    assert AgentInv(s, a) && a.cursor == Some(t) && a.seenAt == t;
    assert forall u :: u in s.lastStamp ==> Observed(s, a.newGaps, t, u) && Observed(s, a.deletedGaps, t, u);
  }

  lemma FullPullHolds(moves: seq<Move>, m: MachineId, t: Time)
    requires RunMoves(moves).Some? && RunMoves(moves).value.now <= t
    ensures RunMoves(moves + [Pull(m, true, t)]).Some?
    ensures var s := RunMoves(moves + [Pull(m, true, t)]).value;
            s.rows == RunMoves(moves).value.rows && AgentOf(s, m).held == Snapshot(s.rows, t)
  {
    MoveAppends(moves, Pull(m, true, t));
  }

  /**
   Delta refines snapshot. In every run of writers and atomic pulls, a delta pull at t leaves an agent whose pulls
   were punctual with every uuid that a startup pull at t would have given it.
   Anything else it holds is an expired row that has not been swept: a sweep earlier than the pull leaves only
   rows that expired, or were written, after that sweep.
   */
  lemma DeltaRefinesSnapshot(moves: seq<Move>, m: MachineId, t: Time)
    requires RunMoves(moves + [Pull(m, false, t)]).Some?
    requires Punctual(AgentOf(RunMoves(moves + [Pull(m, false, t)]).value, m))
    ensures RunMoves(moves + [Pull(m, true, t)]).Some?
    ensures var delta, full := RunMoves(moves + [Pull(m, false, t)]).value, RunMoves(moves + [Pull(m, true, t)]).value;
            var held := AgentOf(delta, m).held;
            && delta.rows == full.rows
            && AgentOf(full, m).held == Snapshot(full.rows, t)
            && AgentOf(full, m).held == (set u | u in held && u in delta.rows && Live(delta.rows[u], t))
            && forall u :: u in held - AgentOf(full, m).held ==>
                 && u in delta.rows && Expired(delta.rows[u], t)
                 && (delta.lastSweep.Some? ==>
                       || delta.rows[u].expiresAt > delta.lastSweep.value
                       || delta.rows[u].updatedAt > delta.lastSweep.value)
  {
    var byDelta := moves + [Pull(m, false, t)];
    assert byDelta[..|moves|] == moves;
    MovesCompose(byDelta);
    JustPulled(moves, m, false, t);
    FullPullHolds(moves, m, t);
  }

  /** The first pull after a sweep: right after it the agent holds exactly the snapshot. */
  lemma SweptPullIsExact(moves: seq<Move>, m: MachineId, swept: Time, t: Time)
    requires RunMoves(moves + [Change(Sweep, swept)] + [Pull(m, false, t)]).Some?
    requires Punctual(AgentOf(RunMoves(moves + [Change(Sweep, swept)] + [Pull(m, false, t)]).value, m))
    ensures var s := RunMoves(moves + [Change(Sweep, swept)] + [Pull(m, false, t)]).value;
            && Snapshot(s.rows, t) <= AgentOf(s, m).held
            && (forall u :: u in AgentOf(s, m).held - Snapshot(s.rows, t) ==>
                              u in s.rows && !s.rows[u].isDeleted && swept < s.rows[u].expiresAt <= t)
            && (t == swept ==> AgentOf(s, m).held == Snapshot(s.rows, t))
  {
    var swepts := moves + [Change(Sweep, swept)];
    var pulled := swepts + [Pull(m, false, t)];
    assert pulled[..|swepts|] == swepts && swepts[..|moves|] == moves;
    MovesCompose(pulled);
    MovesCompose(swepts);
    DeltaRefinesSnapshot(swepts, m, t);
    Reachable(StepsOf(swepts));
    var s := RunMoves(pulled).value;
    assert s.lastSweep == Some(swept) && s.rows == RunMoves(swepts).value.rows;
    assert forall u :: u in s.rows ==> s.rows[u].updatedAt <= swept;
  }
}
