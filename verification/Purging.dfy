/**
 Purging never changes what an agent that keeps in touch ends up holding: a run is compared with the same run less its
 purges, first for pulls interleaved statement by statement, then for indivisible pulls.
 */
module Purging {
  import opened Base
  import opened Decisions
  import opened Delivery
  import opened AtomicPulls

  // ------------------------------------------------------------------ tables

  predicate SameSync(r: Row, q: Row) {
    && r.isDeleted == q.isDeleted && r.deletedAt == q.deletedAt && r.origin == q.origin
    && r.updatedAt == q.updatedAt && r.expiresAt == q.expiresAt
  }

  /** The purged table is the unpurged one less some deleted rows, as far as the stream can tell. */
  ghost predicate TablesMatch(rows: Table, all: Table, derived: iset<Uuid>) {
    && (forall u :: u in rows ==> u in all && SameSync(rows[u], all[u]))
    && (forall u :: u in all && u !in rows ==> all[u].isDeleted)
    && (forall u :: u in all && u in derived ==> all[u].origin == UPSTREAM)
  }

  lemma MatchWrite(rows: Table, all: Table, derived: iset<Uuid>, w: Decisions.Write, t: Time)
    requires TablesMatch(rows, all, derived) && !w.Purge?
    requires w.Create? ==> w.uuid !in derived && w.uuid !in all
    requires w.Upsert? ==> w.uuid in derived && w.draft.origin == UPSTREAM
    ensures TablesMatch(Apply(rows, w, t), Apply(all, w, t), derived)
  {
  }

  lemma MatchPurge(rows: Table, all: Table, derived: iset<Uuid>, t: Time)
    requires TablesMatch(rows, all, derived)
    ensures TablesMatch(Apply(rows, Purge, t), all, derived)
  {
  }

  lemma MatchSelects(rows: Table, all: Table, derived: iset<Uuid>, c: Time, t: Time)
    requires TablesMatch(rows, all, derived)
    ensures Snapshot(rows, t) == Snapshot(all, t)
    ensures NewSince(rows, c, t) == NewSince(all, c, t)
    ensures DeletedSince(rows, c) <= DeletedSince(all, c)
    ensures DeletedSince(all, c) - DeletedSince(rows, c) <= all.Keys - rows.Keys
  {
  }

  // ------------------------------------------------------- interleaved pulls

  /**
   The callers' discipline on uuids: a created row's random uuid was never used before and is not one derived
   for an upstream decision; upserts use derived uuids and carry the upstream origin.
   */
  ghost predicate Disciplined(s: System, w: Decisions.Write, derived: iset<Uuid>) {
    match w
    case Create(u, _) => u !in derived && u !in s.lastStamp
    case Upsert(u, d) => u in derived && d.origin == UPSTREAM
    case _ => true
  }

  ghost predicate DisciplinedSteps(steps: seq<Step>, derived: iset<Uuid>) {
    forall i :: 0 <= i < |steps| && steps[i].Write? && Exec(steps[..i]).Some? ==>
                  Disciplined(Exec(steps[..i]).value, steps[i].write, derived)
  }

  predicate IsPurge(step: Step) {
    step.Write? && step.write.Purge?
  }

  function StepsWithoutPurges(steps: seq<Step>): seq<Step> {
    if steps == [] then []
    else
      var last, before := steps[|steps| - 1], StepsWithoutPurges(steps[..|steps| - 1]);
      if IsPurge(last) then before else before + [last]
  }

  /** A pull has got as far in both runs; without purges it finds the same new rows and no fewer deleted ones. */
  ghost predicate PhaseFollows(p: Phase, q: Phase) {
    if p.DeletedTaken? && q.DeletedTaken?
    then p == q.(removed := p.removed) && p.removed <= q.removed
    else p == q
  }

  /** Without purges the agent has the same history, and holds no more. */
  ghost predicate AgentFollows(a: Agent, b: Agent) {
    && PhaseFollows(a.phase, b.phase)
    && b == a.(held := b.held, phase := b.phase)
    && b.held <= a.held
  }

  ghost predicate Follows(s: System, all: System, derived: iset<Uuid>) {
    && TablesMatch(s.rows, all.rows, derived)
    && all.now <= s.now && all.lastStamp.Keys <= s.lastStamp.Keys
    && s.agents.Keys == all.agents.Keys
    && forall m :: m in s.agents ==> AgentFollows(s.agents[m], all.agents[m])
  }

  lemma FollowsWrite(s: System, all: System, derived: iset<Uuid>, w: Decisions.Write, t: Time)
    requires StoreInv(all) && Follows(s, all, derived) && s.now < t && !w.Purge? && Disciplined(s, w, derived)
    ensures Follows(Next(s, Step.Write(w, t)), Next(all, Step.Write(w, t)), derived)
  {
    assert all.rows.Keys <= s.lastStamp.Keys;
    MatchWrite(s.rows, all.rows, derived, w, t);
  }

  lemma FollowsPurge(s: System, all: System, derived: iset<Uuid>, t: Time)
    requires Follows(s, all, derived) && s.now < t
    ensures Follows(Next(s, Step.Write(Purge, t)), all, derived)
  {
    MatchPurge(s.rows, all.rows, derived, t);
  }

  lemma FinishedFollows(a: Agent, b: Agent, t: Time)
    requires AgentFollows(a, b) && (a.phase.DeletedTaken? || (a.phase.NewTaken? && a.phase.mode.None?))
    ensures AgentFollows(Finished(a, t), Finished(b, t))
  {
  }

  lemma SelectFollows(rows: Table, all: Table, derived: iset<Uuid>, a: Agent, b: Agent, t: Time)
    requires TablesMatch(rows, all, derived) && AgentFollows(a, b)
    ensures a.phase.Began? ==> AgentFollows(NewSelected(a, rows, t), NewSelected(b, all, t))
    ensures a.phase.NewTaken? && a.phase.mode.Some? ==>
              AgentFollows(DeletedSelected(a, rows, t), DeletedSelected(b, all, t))
  {
    if (a.phase.Began? || a.phase.NewTaken?) && a.phase.mode.Some? {
      MatchSelects(rows, all, derived, a.phase.mode.value, t);
    } else {
      MatchSelects(rows, all, derived, 0, t);
    }
  }

  lemma FollowsPull(s: System, all: System, derived: iset<Uuid>, step: Step)
    requires Follows(s, all, derived) && Enabled(s, step) && !step.Write?
    ensures Enabled(all, step) && Follows(Next(s, step), Next(all, step), derived)
  {
    var a, b := AgentOf(s, step.machine), AgentOf(all, step.machine);
    assert AgentFollows(a, b);
    match step
    case Begin(_, _, _) =>
    case SelectNew(_, t) => SelectFollows(s.rows, all.rows, derived, a, b, t);
    case SelectDeleted(_, t) => SelectFollows(s.rows, all.rows, derived, a, b, t);
    case Finish(_, t) => FinishedFollows(a, b, t);
    case Abort(_, _) =>
  }

  lemma {:induction false} PurgesFollowed(steps: seq<Step>, derived: iset<Uuid>)
    requires Exec(steps).Some? && DisciplinedSteps(steps, derived)
    ensures Exec(StepsWithoutPurges(steps)).Some?
    ensures Follows(Exec(steps).value, Exec(StepsWithoutPurges(steps)).value, derived)
  {
    if steps != [] {
      var n := |steps| - 1;
      var before, last := steps[..n], steps[n];
      forall i | 0 <= i < n ensures before[..i] == steps[..i] && before[i] == steps[i] {
      }
      PurgesFollowed(before, derived);
      var s, kept := Exec(before).value, StepsWithoutPurges(before);
      var all := Exec(kept).value;
      Reachable(kept);
      if last.Write? {
        if last.write.Purge? { FollowsPurge(s, all, derived, last.at); }
        else { FollowsWrite(s, all, derived, last.write, last.at); }
      } else {
        FollowsPull(s, all, derived, last);
      }
      if !IsPurge(last) { ExecSnoc(kept, last); }
    }
  }

  /** The agent's pulls could see how things stand with u: deleted outside its gaps, or live outside its gaps. */
  ghost predicate Settled(s: System, a: Agent, u: Uuid) {
    && a.cursor.Some?
    && if Gone(s.rows, u)
       then Punctual(a) && Observed(s, a.deletedGaps, a.cursor.value, u)
       else Live(s.rows[u], a.seenAt) && Observed(s, a.newGaps, a.cursor.value, u)
  }

  /**
   Interleaved purging. In any disciplined run, leaving out every purge gives each machine the same cursor and history.
   The agent holds no more without them, and exactly the same of the uuids last written outside the gaps of its pulls.
   */
  lemma InterleavedPurgeInvisible(steps: seq<Step>, derived: iset<Uuid>, m: MachineId)
    requires Exec(steps).Some? && DisciplinedSteps(steps, derived)
    ensures Exec(StepsWithoutPurges(steps)).Some?
    ensures var s := Exec(steps).value;
            var a, b := AgentOf(s, m), AgentOf(Exec(StepsWithoutPurges(steps)).value, m);
            && AgentFollows(a, b)
            && forall u :: Settled(s, a, u) ==> (u in a.held <==> u in b.held)
  {
    PurgesFollowed(steps, derived);
    Reachable(steps);
    Reachable(StepsWithoutPurges(steps));
    var s, all := Exec(steps).value, Exec(StepsWithoutPurges(steps)).value;
    var a, b := AgentOf(s, m), AgentOf(all, m);
    assert AgentFollows(a, b) && AgentInv(s, a) && AgentInv(all, b);
    forall u | Settled(s, a, u) ensures u in a.held <==> u in b.held {
      if !Gone(s.rows, u) {
        assert Observed(all, b.newGaps, b.cursor.value, u);
      }
    }
  }

  // ------------------------------------------------------ indivisible pulls

  ghost predicate DisciplinedMoves(moves: seq<Move>, derived: iset<Uuid>)
    requires RunMoves(moves).Some?
  {
    moves != [] ==>
      var before := moves[..|moves| - 1];
      MovesCompose(moves);
      && DisciplinedMoves(before, derived)
      && (moves[|moves| - 1].Change? ==> Disciplined(RunMoves(before).value, moves[|moves| - 1].write, derived))
  }

  function WithoutPurges(moves: seq<Move>): seq<Move> {
    if moves == [] then []
    else
      var last := moves[|moves| - 1];
      var before := WithoutPurges(moves[..|moves| - 1]);
      if last.Change? && last.write.Purge? then before else before + [last]
  }

  ghost predicate AgentsMatch(s: System, all: System) {
    && s.agents.Keys == all.agents.Keys
    && forall m :: m in s.agents ==>
         AgentMatch(s.agents[m], all.agents[m])
  }

  ghost predicate Matches(s: System, all: System, derived: iset<Uuid>) {
    && TablesMatch(s.rows, all.rows, derived) && AgentsMatch(s, all)
    && all.now <= s.now && all.lastStamp.Keys <= s.lastStamp.Keys
  }

  ghost predicate AgentMatch(a: Agent, b: Agent) {
    a.cursor == b.cursor && a.spans == b.spans && (Punctual(a) ==> a.held == b.held)
  }

  /** The unpurged table may list more deletions, but only of uuids the agent does not hold. */
  lemma ExtraDeletionsHarmless(s: System, all: Table, derived: iset<Uuid>, a: Agent, t: Time)
    requires StoreInv(s) && AgentInv(s, a) && TablesMatch(s.rows, all, derived) && s.now <= t
    requires NoGaps(a)
    requires a.cursor.Some? && Punctual(a) && t <= a.cursor.value + RETENTION
    ensures var c := a.cursor.value;
            (a.held + NewSince(s.rows, c, t)) - DeletedSince(s.rows, c)
            == (a.held + NewSince(all, c, t)) - DeletedSince(all, c)
  {
    var c := a.cursor.value;
    MatchSelects(s.rows, all, derived, c, t);
    forall u | u in a.held + NewSince(s.rows, c, t)
      ensures u in DeletedSince(all, c) <==> u in DeletedSince(s.rows, c)
    {
      if u !in s.rows {
        assert s.lastStamp[u] < c;
        assert Observed(s, a.deletedGaps, c, u);
      }
    }
  }

  lemma MatchPull(s: System, all: System, derived: iset<Uuid>, m: MachineId, full: bool, t: Time)
    requires Inv(s) && Quiet(s) && Inv(all) && TablesMatch(s.rows, all.rows, derived) && s.now <= t
    requires AgentMatch(AgentOf(s, m), AgentOf(all, m))
    ensures AgentMatch(Answered(s, AgentOf(s, m), full, t), Answered(all, AgentOf(all, m), full, t))
  {
    var a, b := AgentOf(s, m), AgentOf(all, m);
    assert AgentInv(s, a) && AgentInv(all, b);
    if full || a.cursor.None? {
      MatchSelects(s.rows, all.rows, derived, 0, t);
    } else if Punctual(a) && t <= a.cursor.value + RETENTION {
      ExtraDeletionsHarmless(s, all.rows, derived, a, t);
    }
  }

  lemma AgentsMatchSet(s: System, all: System, m: MachineId, a: Agent, b: Agent)
    requires AgentsMatch(s, all) && AgentMatch(a, b)
    ensures AgentsMatch(s.(agents := s.agents[m := a]), all.(agents := all.agents[m := b]))
  {
  }

  lemma MatchChange(s: System, all: System, derived: iset<Uuid>, w: Decisions.Write, t: Time)
    requires StoreInv(all) && Matches(s, all, derived) && s.now < t && !w.Purge? && Disciplined(s, w, derived)
    ensures Matches(Next(s, Step.Write(w, t)), Next(all, Step.Write(w, t)), derived)
  {
    assert all.rows.Keys <= s.lastStamp.Keys;
    MatchWrite(s.rows, all.rows, derived, w, t);
  }

  lemma MatchMove(s: System, all: System, derived: iset<Uuid>, move: Move)
    requires Inv(s) && Quiet(s) && Inv(all) && Matches(s, all, derived) && MoveEnabled(s, move)
    requires move.Change? ==> !move.write.Purge? && Disciplined(s, move.write, derived)
    ensures Matches(MoveNext(s, move), MoveNext(all, move), derived)
  {
    match move
    case Change(w, t) => MatchChange(s, all, derived, w, t);
    case Pull(m, full, t) =>
      assert AgentMatch(AgentOf(s, m), AgentOf(all, m));
      MatchPull(s, all, derived, m, full, t);
      AgentsMatchSet(s, all, m, Answered(s, AgentOf(s, m), full, t), Answered(all, AgentOf(all, m), full, t));
  }

  /**
   Purging never changes what an agent ends up holding: in any disciplined run of writers and atomic pulls, leaving
   out every purge gives each machine the same cursor, and the same uuids unless one of its pulls came too late.
   */
  lemma {:induction false} PurgeInvisible(moves: seq<Move>, derived: iset<Uuid>)
    requires RunMoves(moves).Some? && DisciplinedMoves(moves, derived)
    ensures RunMoves(WithoutPurges(moves)).Some?
    ensures Matches(RunMoves(moves).value, RunMoves(WithoutPurges(moves)).value, derived)
  {
    if moves != [] {
      var before, last := moves[..|moves| - 1], moves[|moves| - 1];
      MovesCompose(moves);
      PurgeInvisible(before, derived);
      var s, kept := RunMoves(before).value, WithoutPurges(before);
      var all := RunMoves(kept).value;
      if last.Change? && last.write.Purge? {
        MatchPurge(s.rows, all.rows, derived, last.at);
      } else {
        MovesCompose(before);
        Reachable(StepsOf(before));
        Reachable(StepsOf(kept));
        MatchMove(s, all, derived, last);
        MoveAppends(kept, last);
      }
    }
  }
}
