/**
 Which writes reach an agent, exactly. In every interleaved run, once a pull has moved a machine's cursor past the last
 write to a uuid, when that write came decides whether the agent holds the uuid. A deletion is missed if and only if it
 fell between the deleted select and the cursor write of a pull, or its row was purged before the select that would have
 reported it. A new row is missed if and only if it fell between the new select and the cursor write.
 */
module ExactDelivery {
  import opened Base
  import opened Decisions
  import opened Delivery

  /** The write at index k of the run is the last one to u, and a pull of m has since moved the cursor up to it. */
  ghost predicate Passed(steps: seq<Step>, k: nat, m: MachineId, u: Uuid) {
    && Exec(steps).Some? && k < |steps| && steps[k].Write?
    && var s, c := Exec(steps).value, AgentOf(Exec(steps).value, m).cursor;
       u in s.lastStamp && s.lastStamp[u] == steps[k].at && c.Some? && steps[k].at <= c.value
  }

  /** The step ends a pull of m. */
  predicate Ends(step: Step, m: MachineId) {
    (step.Finish? || step.Abort?) && step.machine == m
  }

  ghost predicate Ended(steps: seq<Step>, k: nat, m: MachineId) {
    exists j :: k < j < |steps| && Ends(steps[j], m)
  }

  /** The first pull of m to end after index k was aborted. */
  ghost predicate AbortedFirst(steps: seq<Step>, k: nat, m: MachineId) {
    exists j :: k < j < |steps| && Ends(steps[j], m) && steps[j].Abort? && !Ended(steps[..j], k, m)
  }

  /**
   The agent had u when the write came: it held u, or would have from the selects its pull in progress had already
   taken, if that pull was not aborted later.
   */
  ghost predicate Expected(steps: seq<Step>, k: nat, m: MachineId, u: Uuid)
    requires k < |steps|
  {
    && Exec(steps[..k]).Some?
    && var a := AgentOf(Exec(steps[..k]).value, m);
       u in if AbortedFirst(steps, k, m) then a.held else Pending(a)
  }

  /** The row of u was purged before the deleted select that asked for deletions from before w on. */
  ghost predicate PurgedFirst(s: System, a: Agent, u: Uuid, w: Time) {
    u in s.purgedAt && exists g :: g in a.spans && g.lo < w < s.purgedAt[u] <= g.hi
  }

  /** A pull since the last startup pull selected its new rows before w. */
  ghost predicate SelectedBefore(a: Agent, w: Time) {
    exists g :: g in a.newGaps && g.lo < w
  }

  /** A pull since the last startup pull selected its new rows from w on, before the row expired. */
  ghost predicate SelectedAlive(a: Agent, w: Time, expiresAt: Time) {
    exists g :: g in a.newGaps && w <= g.lo < expiresAt
  }

  // ------------------------------------------------- what is kept since the write

  /** u was deleted by a write stamped w; expected says whether the agent had it then. */
  ghost predicate GoneTracked(s: System, a: Agent, u: Uuid, w: Time, expected: bool) {
    if a.cursor.Some? && w <= a.cursor.value then
      && (u in a.held <==> expected && (InGap(a.deletedGaps, w) || PurgedFirst(s, a, u, w)))
      && match a.phase
         case Idle => true
         case Began(_, _) => true
         case NewTaken(_, _, t1, added) => w <= t1 && u !in added
         case DeletedTaken(_, t1, added, _, removed) => w <= t1 && u !in added && u !in removed
    else
      match a.phase
      case Idle => u in a.held <==> expected
      case Began(_, _) => u in a.held <==> expected
      case NewTaken(_, mode, t1, _) =>
        && (u in Pending(a) <==> expected && (mode.None? ==> t1 < w))
        && (w <= t1 ==> (u in a.held <==> expected))
      case DeletedTaken(_, t1, _, t2, _) =>
        && (u in Pending(a) <==> expected && (t2 < w || (u in s.purgedAt && w < s.purgedAt[u] <= t2)))
        && (w <= t1 ==> (u in a.held <==> expected))
  }

  /** u was inserted or revived by a write stamped w. */
  ghost predicate LiveTracked(a: Agent, u: Uuid, w: Time, expiresAt: Time, expected: bool) {
    if a.cursor.Some? && w <= a.cursor.value then
      && (u in a.held <==>
            (expected && SelectedBefore(a, w)) || (!InGap(a.newGaps, w) && SelectedAlive(a, w, expiresAt)))
      && match a.phase
         case Idle => true
         case Began(_, _) => true
         case NewTaken(_, mode, t1, added) => w <= t1 && (u in added <==> mode.None? && t1 < expiresAt)
         case DeletedTaken(_, t1, added, _, removed) => w <= t1 && u !in added && u !in removed
    else
      match a.phase
      case Idle => u in a.held <==> expected
      case Began(_, _) => u in a.held <==> expected
      case NewTaken(_, mode, t1, _) =>
        && (u in Pending(a) <==> (expected && (mode.None? ==> t1 < w)) || w <= t1 < expiresAt)
        && (w <= t1 ==> (u in a.held <==> expected))
      case DeletedTaken(_, t1, _, _, _) =>
        && (u in Pending(a) <==> expected || w <= t1 < expiresAt)
        && (w <= t1 ==> (u in a.held <==> expected))
  }

  ghost predicate Tracked(s: System, a: Agent, u: Uuid, w: Time, expected: bool) {
    && u in s.lastStamp && s.lastStamp[u] == w <= s.now
    && if Gone(s.rows, u) then GoneTracked(s, a, u, w, expected)
       else LiveTracked(a, u, w, s.rows[u].expiresAt, expected)
  }

  lemma TrackedFromWrite(s: System, write: Decisions.Write, w: Time, m: MachineId, u: Uuid)
    requires StoreInv(s) && AgentInv(s, AgentOf(s, m)) && s.now < w
    requires var s' := Next(s, Step.Write(write, w)); u in s'.lastStamp && s'.lastStamp[u] == w
    ensures Tracked(Next(s, Step.Write(write, w)), AgentOf(s, m), u, w, u in Pending(AgentOf(s, m)))
  {
    StoreInvWrite(s, write, w);
  }

  lemma TrackedThroughWrite(s: System, write: Decisions.Write, t: Time, a: Agent, u: Uuid, w: Time, expected: bool)
    requires StoreInv(s) && AgentInv(s, a) && s.now < t && Tracked(s, a, u, w, expected)
    requires Next(s, Step.Write(write, t)).lastStamp[u] == w
    ensures Tracked(Next(s, Step.Write(write, t)), a, u, w, expected)
  {
    var s' := Next(s, Step.Write(write, t));
    StoreInvWrite(s, write, t);
    Untouched(s, write, t, u);
    WriteFrame(s.rows, write, t);
    assert u in s'.purgedAt && s'.purgedAt[u] <= s.now ==> u in s.purgedAt && s'.purgedAt[u] == s.purgedAt[u];
  }

  /** From a to b the machine takes one of the statements before the cursor write. */
  ghost predicate Selected(s: System, a: Agent, b: Agent) {
    || (a.phase.Idle? && exists full :: b == Started(a, full))
    || (a.phase.Began? && exists t :: s.now <= t && b == NewSelected(a, s.rows, t))
    || (a.phase.NewTaken? && a.phase.mode.Some? && exists t :: s.now <= t && b == DeletedSelected(a, s.rows, t))
  }

  lemma GoneThroughSelect(s: System, a: Agent, b: Agent, u: Uuid, w: Time, expected: bool)
    requires StoreInv(s) && AgentInv(s, a) && u in s.lastStamp && s.lastStamp[u] == w && Gone(s.rows, u)
    requires GoneTracked(s, a, u, w, expected) && Selected(s, a, b)
    ensures GoneTracked(s, b, u, w, expected)
  {
  }

  lemma LiveThroughSelect(s: System, a: Agent, b: Agent, u: Uuid, w: Time, expected: bool)
    requires StoreInv(s) && AgentInv(s, a) && u in s.lastStamp && s.lastStamp[u] == w && !Gone(s.rows, u)
    requires LiveTracked(a, u, w, s.rows[u].expiresAt, expected) && Selected(s, a, b)
    ensures LiveTracked(b, u, w, s.rows[u].expiresAt, expected)
  {
  }

  lemma TrackedThroughSelect(s: System, step: Step, m: MachineId, u: Uuid, w: Time, expected: bool)
    requires StoreInv(s) && AgentInv(s, AgentOf(s, m)) && Enabled(s, step) && Tracked(s, AgentOf(s, m), u, w, expected)
    requires (step.Begin? || step.SelectNew? || step.SelectDeleted?) && step.machine == m
    ensures Tracked(Next(s, step), Next(s, step).agents[m], u, w, expected)
  {
    var a, b := AgentOf(s, m), Next(s, step).agents[m];
    assert Selected(s, a, b);
    if Gone(s.rows, u) {
      GoneThroughSelect(s, a, b, u, w, expected);
    } else {
      LiveThroughSelect(s, a, b, u, w, expected);
    }
  }

  lemma TrackedThroughStartup(s: System, m: MachineId, t: Time, u: Uuid, w: Time, expected: bool)
    requires StoreInv(s) && AgentInv(s, AgentOf(s, m)) && Enabled(s, Finish(m, t))
    requires AgentOf(s, m).phase.NewTaken? && Tracked(s, AgentOf(s, m), u, w, expected)
    ensures Tracked(Next(s, Finish(m, t)), Next(s, Finish(m, t)).agents[m], u, w, expected)
  {
    var a := AgentOf(s, m);
    var b := Finished(a, t);
    assert Gap(a.phase.newAt, t) in b.newGaps;
    assert InGap(b.newGaps, w) <==> a.phase.newAt < w;
    assert InGap(b.deletedGaps, w) <==> a.phase.newAt < w;
  }

  lemma TrackedThroughDelta(s: System, m: MachineId, t: Time, u: Uuid, w: Time, expected: bool)
    requires StoreInv(s) && AgentInv(s, AgentOf(s, m)) && Enabled(s, Finish(m, t))
    requires AgentOf(s, m).phase.DeletedTaken? && Tracked(s, AgentOf(s, m), u, w, expected)
    ensures Tracked(Next(s, Finish(m, t)), Next(s, Finish(m, t)).agents[m], u, w, expected)
  {
    var a := AgentOf(s, m);
    if Gone(s.rows, u) {
      GoneThroughDelta(s, a, t, u, w, expected);
    } else {
      LiveThroughDelta(s, a, t, u, w, expected);
    }
  }

  lemma GoneThroughDelta(s: System, a: Agent, t: Time, u: Uuid, w: Time, expected: bool)
    requires AgentInv(s, a) && StoreInv(s) && s.now <= t && w <= s.now && a.phase.DeletedTaken?
    requires GoneTracked(s, a, u, w, expected)
    ensures GoneTracked(s, Finished(a, t), u, w, expected)
  {
    var b := Finished(a, t);
    var DeletedTaken(c, t1, added, t2, removed) := a.phase;
    assert Gap(t2, t) in b.deletedGaps && (forall g :: g in b.deletedGaps <==> g in a.deletedGaps || g == Gap(t2, t));
    assert Gap(c, t2) in b.spans && (forall g :: g in b.spans <==> g in a.spans || g == Gap(c, t2));
    assert InGap(b.deletedGaps, w) <==> InGap(a.deletedGaps, w) || t2 < w;
    assert PurgedFirst(s, b, u, w) <==>
           PurgedFirst(s, a, u, w) || (u in s.purgedAt && c < w < s.purgedAt[u] <= t2);
  }

  lemma LiveThroughDelta(s: System, a: Agent, t: Time, u: Uuid, w: Time, expected: bool)
    requires AgentInv(s, a) && StoreInv(s) && s.now <= t && w <= s.now && a.phase.DeletedTaken?
    requires u in s.rows && LiveTracked(a, u, w, s.rows[u].expiresAt, expected)
    ensures LiveTracked(Finished(a, t), u, w, s.rows[u].expiresAt, expected)
  {
    var b, x := Finished(a, t), s.rows[u].expiresAt;
    var DeletedTaken(c, t1, added, t2, removed) := a.phase;
    assert Gap(a.seenAt, c) in a.newGaps;
    assert Gap(t1, t) in b.newGaps && (forall g :: g in b.newGaps <==> g in a.newGaps || g == Gap(t1, t));
    assert InGap(b.newGaps, w) <==> InGap(a.newGaps, w) || t1 < w;
    assert SelectedBefore(b, w) <==> SelectedBefore(a, w) || t1 < w;
    assert SelectedAlive(b, w, x) <==> SelectedAlive(a, w, x) || w <= t1 < x;
  }

  /** Another machine's statement. */
  lemma TrackedThroughOther(s: System, step: Step, m: MachineId, u: Uuid, w: Time, expected: bool)
    requires Enabled(s, step) && !step.Write? && step.machine != m && Tracked(s, AgentOf(s, m), u, w, expected)
    ensures Tracked(Next(s, step), AgentOf(Next(s, step), m), u, w, expected)
  {
    assert AgentOf(Next(s, step), m) == AgentOf(s, m);
  }

  /** Whatever the pull in progress has selected, it selected from w on. */
  predicate SelectedSince(a: Agent, w: Time) {
    a.phase.NewTaken? || a.phase.DeletedTaken? ==> w <= a.phase.newAt
  }

  lemma TrackedThroughAbort(s: System, a: Agent, t: Time, u: Uuid, w: Time, expected: bool)
    requires s.now <= t && Tracked(s, a, u, w, expected) && SelectedSince(a, w)
    ensures Tracked(s.(now := t), Aborted(a), u, w, expected)
  {
  }

  lemma TrackedThroughPull(s: System, step: Step, m: MachineId, u: Uuid, w: Time, expected: bool)
    requires StoreInv(s) && AgentInv(s, AgentOf(s, m)) && Enabled(s, step) && !step.Write?
    requires Tracked(s, AgentOf(s, m), u, w, expected)
    requires step.Abort? && step.machine == m ==> SelectedSince(AgentOf(s, m), w)
    ensures Tracked(Next(s, step), AgentOf(Next(s, step), m), u, w, expected)
  {
    if step.machine != m {
      TrackedThroughOther(s, step, m, u, w, expected);
    } else if step.Abort? {
      TrackedThroughAbort(s, AgentOf(s, m), step.at, u, w, expected);
    } else if !step.Finish? {
      TrackedThroughSelect(s, step, m, u, w, expected);
    } else if AgentOf(s, m).phase.NewTaken? {
      TrackedThroughStartup(s, m, step.at, u, w, expected);
    } else {
      TrackedThroughDelta(s, m, step.at, u, w, expected);
    }
  }

  lemma TrackedThroughStep(s: System, step: Step, m: MachineId, u: Uuid, w: Time, expected: bool)
    requires StoreInv(s) && AgentInv(s, AgentOf(s, m)) && Enabled(s, step) && Tracked(s, AgentOf(s, m), u, w, expected)
    requires step.Abort? && step.machine == m ==> SelectedSince(AgentOf(s, m), w)
    requires u in Next(s, step).lastStamp && Next(s, step).lastStamp[u] == w
    ensures Tracked(Next(s, step), AgentOf(Next(s, step), m), u, w, expected)
  {
    if step.Write? {
      TrackedThroughWrite(s, step.write, step.at, AgentOf(s, m), u, w, expected);
    } else {
      TrackedThroughPull(s, step, m, u, w, expected);
    }
  }

  lemma EndedSnoc(steps: seq<Step>, k: nat, m: MachineId)
    requires k < |steps| - 1
    ensures var n := |steps| - 1;
            && (Ended(steps, k, m) <==> Ended(steps[..n], k, m) || Ends(steps[n], m))
            && (AbortedFirst(steps, k, m) <==>
                  AbortedFirst(steps[..n], k, m) ||
                  (Ends(steps[n], m) && steps[n].Abort? && !Ended(steps[..n], k, m)))
  {
    var n := |steps| - 1;
    forall j | k < j < n ensures steps[..n][j] == steps[j] && steps[..n][..j] == steps[..j] {
    }
    if Ended(steps[..n], k, m) {
      var j :| k < j < n && Ends(steps[..n][j], m);
      assert Ends(steps[j], m);
    }
    if AbortedFirst(steps[..n], k, m) {
      var j :| k < j < n && Ends(steps[..n][j], m) && steps[..n][j].Abort? && !Ended(steps[..n][..j], k, m);
      assert Ends(steps[j], m) && !Ended(steps[..j], k, m);
    }
  }

  lemma SinceStep(s: System, step: Step, m: MachineId, w: Time)
    requires Enabled(s, step) && w <= s.now
    ensures var a, b := AgentOf(s, m), AgentOf(Next(s, step), m);
            && (!Ends(step, m) ==> b.held == a.held && b.cursor == a.cursor)
            && (!Ends(step, m) && SelectedSince(a, w) ==> SelectedSince(b, w))
            && (Ends(step, m) ==> b.phase.Idle?)
  {
  }

  /** Until a pull of m ends its agent is as it was; after one has ended its selects are later than the write. */
  lemma {:induction false} SinceWrite(steps: seq<Step>, k: nat, m: MachineId)
    requires Exec(steps).Some? && k < |steps| && steps[k].Write?
    ensures Exec(steps[..k]).Some?
    ensures var a0, a := AgentOf(Exec(steps[..k]).value, m), AgentOf(Exec(steps).value, m);
            && (!Ended(steps, k, m) ==> a.held == a0.held && a.cursor == a0.cursor)
            && (Ended(steps, k, m) ==> SelectedSince(a, steps[k].at))
  {
    var n := |steps| - 1;
    if k < n {
      var before := steps[..n];
      assert before[..k] == steps[..k] && before[k] == steps[k];
      SinceWrite(before, k, m);
      NowAfter(before, k);
      EndedSnoc(steps, k, m);
      SinceStep(Exec(before).value, steps[n], m, steps[k].at);
    }
  }

  /** The first pull to end after the write is aborted: what the agent would have had from it no longer counts. */
  lemma TrackedThroughFirstAbort(steps: seq<Step>, k: nat, m: MachineId, u: Uuid, t: Time)
    requires Exec(steps).Some? && k < |steps| && steps[k].Write? && !Ended(steps, k, m)
    requires Enabled(Exec(steps).value, Abort(m, t)) && steps[k].at <= Exec(steps).value.now
    requires u in Exec(steps).value.lastStamp && Exec(steps).value.lastStamp[u] == steps[k].at
    ensures Exec(steps[..k]).Some?
    ensures var s' := Next(Exec(steps).value, Abort(m, t));
            Tracked(s', AgentOf(s', m), u, steps[k].at, u in AgentOf(Exec(steps[..k]).value, m).held)
  {
    SinceWrite(steps, k, m);
    Reachable(steps[..k]);
    var s0 := Exec(steps[..k]).value;
    assert AgentInv(s0, AgentOf(s0, m));
    WriteIsLater(steps, k);
  }

  lemma {:induction false} WriteIsLater(steps: seq<Step>, k: nat)
    requires Exec(steps).Some? && k < |steps| && steps[k].Write?
    ensures Exec(steps[..k]).Some? && Exec(steps[..k]).value.now < steps[k].at
  {
    if k < |steps| - 1 {
      var before := steps[..|steps| - 1];
      assert before[..k] == steps[..k];
      WriteIsLater(before, k);
    }
  }

  /** Unless the last step is the first to end a pull of m, and aborts it, what was expected stays so. */
  lemma ExpectedKept(steps: seq<Step>, k: nat, m: MachineId, u: Uuid)
    requires k < |steps| - 1
    requires !Ended(steps[..|steps| - 1], k, m) ==> !(Ends(steps[|steps| - 1], m) && steps[|steps| - 1].Abort?)
    ensures Expected(steps, k, m, u) == Expected(steps[..|steps| - 1], k, m, u)
  {
    EndedSnoc(steps, k, m);
    assert steps[..|steps| - 1][..k] == steps[..k];
  }

  lemma FirstAbortExpects(steps: seq<Step>, k: nat, m: MachineId, u: Uuid)
    requires k < |steps| - 1 && Exec(steps[..k]).Some?
    requires !Ended(steps[..|steps| - 1], k, m) && Ends(steps[|steps| - 1], m) && steps[|steps| - 1].Abort?
    ensures Expected(steps, k, m, u) <==> u in AgentOf(Exec(steps[..k]).value, m).held
  {
    EndedSnoc(steps, k, m);
  }

  lemma TrackedAtWrite(before: seq<Step>, write: Step, m: MachineId, u: Uuid)
    requires Exec(before).Some? && write.Write? && Enabled(Exec(before).value, write)
    requires var s := Next(Exec(before).value, write); u in s.lastStamp && s.lastStamp[u] == write.at
    ensures var s, a := Exec(before).value, AgentOf(Exec(before).value, m);
            Tracked(Next(s, write), a, u, write.at, u in Pending(a))
  {
    Reachable(before);
    var s := Exec(before).value;
    assert AgentInv(s, AgentOf(s, m));
    TrackedFromWrite(s, write.write, write.at, m, u);
  }

  /** One step on from a run in which it was tracked. */
  lemma TrackedFurther(before: seq<Step>, k: nat, step: Step, m: MachineId, u: Uuid)
    requires Exec(before).Some? && k < |before| && before[k].Write? && Enabled(Exec(before).value, step)
    requires Tracked(Exec(before).value, AgentOf(Exec(before).value, m), u, before[k].at, Expected(before, k, m, u))
    requires var s := Next(Exec(before).value, step); u in s.lastStamp && s.lastStamp[u] == before[k].at
    ensures var s := Next(Exec(before).value, step);
            Tracked(s, AgentOf(s, m), u, before[k].at, Expected(before + [step], k, m, u))
  {
    var steps, s := before + [step], Exec(before).value;
    assert steps[..|steps| - 1] == before && steps[..k] == before[..k];
    Reachable(before);
    assert AgentInv(s, AgentOf(s, m));
    SinceWrite(before, k, m);
    if step.Abort? && step.machine == m && !Ended(before, k, m) {
      TrackedThroughFirstAbort(before, k, m, u, step.at);
      FirstAbortExpects(steps, k, m, u);
    } else {
      ExpectedKept(steps, k, m, u);
      TrackedThroughStep(s, step, m, u, before[k].at, Expected(before, k, m, u));
    }
  }

  lemma {:induction false} TrackedSince(steps: seq<Step>, k: nat, m: MachineId, u: Uuid)
    requires Exec(steps).Some? && k < |steps| && steps[k].Write?
    requires u in Exec(steps).value.lastStamp && Exec(steps).value.lastStamp[u] == steps[k].at
    ensures Tracked(Exec(steps).value, AgentOf(Exec(steps).value, m), u, steps[k].at, Expected(steps, k, m, u))
  {
    var n := |steps| - 1;
    var before, last := steps[..n], steps[n];
    if k == n {
      TrackedAtWrite(before, last, m, u);
    } else {
      assert before + [last] == steps;
      Reachable(before);
      NowAfter(before, k);
      StampKept(Exec(before).value, last, u, steps[k].at);
      TrackedSince(before, k, m, u);
      TrackedFurther(before, k, last, m, u);
    }
  }

  /** A later write would have left a later stamp. */
  lemma StampKept(s: System, step: Step, u: Uuid, w: Time)
    requires StoreInv(s) && Enabled(s, step) && w <= s.now
    requires u in Next(s, step).lastStamp && Next(s, step).lastStamp[u] == w
    ensures u in s.lastStamp && s.lastStamp[u] == w
  {
    if step.Write? { Untouched(s, step.write, step.at, u); }
  }

  lemma {:induction false} NowAfter(steps: seq<Step>, k: nat)
    requires Exec(steps).Some? && k < |steps|
    ensures steps[k].at <= Exec(steps).value.now
  {
    if k < |steps| - 1 {
      NowAfter(steps[..|steps| - 1], k);
    }
  }

  // ------------------------------------------------------------------ theorems

  // The induction on the run is in TrackedSince; attempting another one here is slow.
  /**
   Deletions, exactly. Once a pull has passed the last write to a deleted or purged uuid, the agent still holds the uuid
   if and only if it had it when the write came, and the write fell into a deletion gap or the row was purged before the
   deleted select that asked for it. A full pull forgets earlier gaps and spans, and puts the agent right with them.
   */
  lemma {:induction false} DeletionMissedIff(steps: seq<Step>, k: nat, m: MachineId, u: Uuid)
    requires Passed(steps, k, m, u) && Gone(Exec(steps).value.rows, u)
    ensures var s, w := Exec(steps).value, steps[k].at;
            var a := AgentOf(s, m);
            u in a.held <==> Expected(steps, k, m, u) && (InGap(a.deletedGaps, w) || PurgedFirst(s, a, u, w))
  {
    TrackedSince(steps, k, m, u);
  }

  // The induction on the run is in TrackedSince; attempting another one here is slow.
  /** If the pulls were punctual, only the gaps are left. */
  lemma {:induction false} PunctualMissesOnlyInGaps(steps: seq<Step>, k: nat, m: MachineId, u: Uuid)
    requires Passed(steps, k, m, u) && Gone(Exec(steps).value.rows, u)
    requires Punctual(AgentOf(Exec(steps).value, m))
    ensures var a := AgentOf(Exec(steps).value, m);
            u in a.held <==> Expected(steps, k, m, u) && InGap(a.deletedGaps, steps[k].at)
  {
    DeletionMissedIff(steps, k, m, u);
    Reachable(steps);
    var s := Exec(steps).value;
    assert StoreInv(s);
  }

  // The induction on the run is in TrackedSince; attempting another one here is slow.
  /**
   New rows, exactly. Once a pull has passed the last write to an undeleted row, the agent holds it if and only if it
   had it when the write came and no startup pull selected anew since, or the write lies in no new-row gap and some pull
   selected the row before it expired.
   */
  lemma {:induction false} LiveRowHeldIff(steps: seq<Step>, k: nat, m: MachineId, u: Uuid)
    requires Passed(steps, k, m, u) && !Gone(Exec(steps).value.rows, u)
    ensures var s, w := Exec(steps).value, steps[k].at;
            var a := AgentOf(s, m);
            u in a.held <==>
              || (Expected(steps, k, m, u) && SelectedBefore(a, w))
              || (!InGap(a.newGaps, w) && SelectedAlive(a, w, s.rows[u].expiresAt))
  {
    TrackedSince(steps, k, m, u);
  }

  lemma ExpectedWasWritten(steps: seq<Step>, k: nat, m: MachineId, u: Uuid)
    requires k < |steps|
    ensures Expected(steps, k, m, u) ==> u in Exec(steps[..k]).value.lastStamp
  {
    if Exec(steps[..k]).Some? {
      Reachable(steps[..k]);
      var s := Exec(steps[..k]).value;
      assert AgentInv(s, AgentOf(s, m));
    }
  }

  /** A row never written before that has not expired by the last new select is missed if and only if it is in a gap. */
  lemma CreationMissedIff(steps: seq<Step>, k: nat, m: MachineId, u: Uuid)
    requires Passed(steps, k, m, u) && !Gone(Exec(steps).value.rows, u)
    requires Exec(steps[..k]).Some? && u !in Exec(steps[..k]).value.lastStamp
    requires Live(Exec(steps).value.rows[u], AgentOf(Exec(steps).value, m).seenAt)
    ensures u !in AgentOf(Exec(steps).value, m).held <==> InGap(AgentOf(Exec(steps).value, m).newGaps, steps[k].at)
  {
    LiveRowHeldIff(steps, k, m, u);
    Reachable(steps);
    var s := Exec(steps).value;
    var a := AgentOf(s, m);
    assert AgentInv(s, a) && Gap(a.seenAt, a.cursor.value) in a.newGaps;
    ExpectedWasWritten(steps, k, m, u);
  }
}
