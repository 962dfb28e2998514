/**
 The upstream syncer as several server replicas run it: each goes through the steps of sync() in its own time, against
 one shared state row and one advisory lock. A replica may crash at any step, which ends its database session and so
 drops the lock; fetches may fail, and so may the write of the state row. The replicas' clocks agree.
 */
module SyncProtocol {
  import opened Base

  const MIN_SYNC_INTERVAL: int := 2 * HOUR
  const STARTUP_CURSOR_TTL: int := 24 * HOUR

  type Replica = nat

  /** The shared row upstream_sync_state, as far as the schedule depends on it. */
  datatype SyncRow = SyncRow(lastSyncAt: Option<Time>, lastStartupAt: Option<Time>)

  /** Where a replica stands in sync(): Leaving has nothing left to do but unlock. */
  datatype Stage = Idle | Locked | Due | Chosen(startup: bool) | Fetched(startup: bool) | Leaving

  /** What has happened, oldest first. */
  datatype Event = Chose(at: Time, startup: bool) | Fetch(at: Time) | Completed(at: Time, startup: bool)

  datatype World = World(row: SyncRow, lock: Option<Replica>, stages: map<Replica, Stage>, now: Time, log: seq<Event>)

  const INITIAL: World := World(SyncRow(None, None), None, map[], 0, [])

  datatype Step =
    | TryLock(replica: Replica, at: Time)
    | CheckInterval(replica: Replica, at: Time)
    | Choose(replica: Replica, at: Time)
    | FetchDecisions(replica: Replica, at: Time, ok: bool)
    | Persist(replica: Replica, at: Time, ok: bool)
    | Unlock(replica: Replica, at: Time)
    | Crash(replica: Replica, at: Time)

  function StageOf(w: World, r: Replica): Stage {
    if r in w.stages then w.stages[r] else Idle
  }

  predicate TooSoon(row: SyncRow, t: Time) {
    row.lastSyncAt.Some? && t - row.lastSyncAt.value < MIN_SYNC_INTERVAL
  }

  predicate NeedsStartup(row: SyncRow, t: Time) {
    row.lastStartupAt.None? || t - row.lastStartupAt.value > STARTUP_CURSOR_TTL
  }

  function PersistRow(row: SyncRow, startup: bool, t: Time): SyncRow {
    SyncRow(Some(t), if startup then Some(t) else row.lastStartupAt)
  }

  predicate Enabled(w: World, s: Step) {
    && w.now <= s.at
    && match s
       case TryLock(r, _) => StageOf(w, r).Idle?
       case CheckInterval(r, _) => StageOf(w, r).Locked?
       case Choose(r, _) => StageOf(w, r).Due?
       case FetchDecisions(r, _, _) => StageOf(w, r).Chosen?
       case Persist(r, _, _) => StageOf(w, r).Fetched?
       case Unlock(r, _) => StageOf(w, r).Leaving?
       case Crash(_, _) => true
  }

  function At(w: World, r: Replica, stage: Stage, t: Time): World {
    w.(stages := w.stages[r := stage], now := t)
  }

  function Next(w: World, s: Step): World
    requires Enabled(w, s)
  {
    match s
    case TryLock(r, t) =>
      if w.lock.Some? then w.(now := t) else At(w, r, Locked, t).(lock := Some(r))
    case CheckInterval(r, t) =>
      At(w, r, if TooSoon(w.row, t) then Leaving else Due, t)
    case Choose(r, t) =>
      var startup := NeedsStartup(w.row, t);
      At(w, r, Chosen(startup), t).(log := w.log + [Chose(t, startup)])
    case FetchDecisions(r, t, ok) =>
      At(w, r, if ok then Fetched(StageOf(w, r).startup) else Leaving, t).(log := w.log + [Fetch(t)])
    case Persist(r, t, ok) =>
      if ok then
        var startup := StageOf(w, r).startup;
        At(w, r, Leaving, t).(row := PersistRow(w.row, startup, t), log := w.log + [Completed(t, startup)])
      else At(w, r, Leaving, t)
    case Unlock(r, t) =>
      At(w, r, Idle, t).(lock := None)
    case Crash(r, t) =>
      At(w, r, Idle, t).(lock := if w.lock == Some(r) then None else w.lock)
  }

  function Exec(steps: seq<Step>): Option<World> {
    if steps == [] then Some(INITIAL)
    else
      match Exec(steps[..|steps| - 1])
      case None => None
      case Some(w) => if Enabled(w, steps[|steps| - 1]) then Some(Next(w, steps[|steps| - 1])) else None
  }

  // ------------------------------------------------------ reading the log

  /** When the last completed snapshot was persisted. */
  function LastSnapshot(log: seq<Event>): Option<Time> {
    if log == [] then None
    else
      match log[|log| - 1]
      case Completed(t, true) => Some(t)
      case _ => LastSnapshot(log[..|log| - 1])
  }

  function LastCompleted(log: seq<Event>): Option<Time> {
    if log == [] then None
    else
      match log[|log| - 1]
      case Completed(t, _) => Some(t)
      case _ => LastCompleted(log[..|log| - 1])
  }

  /** How many delta syncs have completed since the last completed snapshot. */
  function DeltasSince(log: seq<Event>): nat {
    if log == [] then 0
    else
      var last, before := log[|log| - 1], log[..|log| - 1];
      if !last.Completed? then DeltasSince(before)
      else if last.startup then 0
      else DeltasSince(before) + 1
  }

  ghost predicate MutualExclusion(w: World) {
    forall r :: r in w.stages && !w.stages[r].Idle? ==> w.lock == Some(r)
  }

  /** Every fetch comes at least two hours after every sync persisted before it. */
  ghost predicate Spaced(log: seq<Event>) {
    forall i, j :: 0 <= i < j < |log| && log[i].Completed? && log[j].Fetch? ==>
                     log[j].at >= log[i].at + 7200 * SECOND
  }

  /** Every delta sync is chosen at most a day after the last completed snapshot, and never before there is one. */
  ghost predicate Anchored(log: seq<Event>) {
    forall i :: 0 <= i < |log| && log[i].Chose? && !log[i].startup ==>
                  LastSnapshot(log[..i]).Some? && log[i].at - LastSnapshot(log[..i]).value <= 86_400 * SECOND
  }

  /** At every moment at most 12 delta syncs have completed since the last completed snapshot. */
  ghost predicate Bounded(log: seq<Event>) {
    forall i :: 0 <= i <= |log| ==> DeltasSince(log[..i]) <= 12
  }

  ghost predicate Ordered(log: seq<Event>, now: Time) {
    && (forall i :: 0 <= i < |log| ==> log[i].at <= now)
    && (forall i, j :: 0 <= i < j < |log| ==> log[i].at <= log[j].at)
  }

  // ---------------------------------------------------------- invariant

  predicate StageOk(w: World, stage: Stage) {
    match stage
    case Idle => true
    case Locked => true
    case Leaving => true
    case Due => !TooSoon(w.row, w.now)
    case Chosen(startup) => !TooSoon(w.row, w.now) && (!startup ==> DeltaOk(w))
    case Fetched(startup) => !TooSoon(w.row, w.now) && (!startup ==> DeltaOk(w))
  }

  predicate DeltaOk(w: World) {
    w.row.lastStartupAt.Some? && DeltasSince(w.log) <= 11
  }

  ghost predicate RowOk(w: World) {
    && w.row.lastSyncAt == LastCompleted(w.log)
    && w.row.lastStartupAt == LastSnapshot(w.log)
    && (w.row.lastSyncAt.Some? <==> w.row.lastStartupAt.Some?)
    && (w.row.lastSyncAt.Some? ==>
          w.row.lastStartupAt.value + DeltasSince(w.log) * MIN_SYNC_INTERVAL <= w.row.lastSyncAt.value <= w.now)
    && (forall i :: 0 <= i < |w.log| && w.log[i].Completed? ==>
                      w.row.lastSyncAt.Some? && w.log[i].at <= w.row.lastSyncAt.value)
  }

  ghost predicate Inv(w: World) {
    && MutualExclusion(w) && RowOk(w)
    && LogOk(w.log) && Ordered(w.log, w.now)
    && (forall r :: r in w.stages ==> StageOk(w, w.stages[r]))
  }

  lemma LogSnoc(log: seq<Event>, e: Event)
    ensures LastSnapshot(log + [e]) == if e.Completed? && e.startup then Some(e.at) else LastSnapshot(log)
    ensures LastCompleted(log + [e]) == if e.Completed? then Some(e.at) else LastCompleted(log)
    ensures DeltasSince(log + [e]) ==
            if !e.Completed? then DeltasSince(log) else if e.startup then 0 else DeltasSince(log) + 1
    ensures forall i :: 0 <= i <= |log| ==> (log + [e])[..i] == log[..i]
    ensures (log + [e])[..|log| + 1] == log + [e] && log[..|log|] == log
  {
    assert (log + [e])[..|log|] == log;
  }

  lemma SpacedSnoc(log: seq<Event>, e: Event)
    requires Spaced(log)
    requires e.Fetch? ==> forall i :: 0 <= i < |log| && log[i].Completed? ==> e.at >= log[i].at + MIN_SYNC_INTERVAL
    ensures Spaced(log + [e])
  {
  }

  lemma AnchoredSnoc(log: seq<Event>, e: Event)
    requires Anchored(log)
    requires e.Chose? && !e.startup ==> LastSnapshot(log).Some? && e.at - LastSnapshot(log).value <= STARTUP_CURSOR_TTL
    ensures Anchored(log + [e])
  {
    LogSnoc(log, e);
  }

  lemma BoundedSnoc(log: seq<Event>, e: Event)
    requires Bounded(log) && (e.Completed? && !e.startup ==> DeltasSince(log) <= 11)
    ensures Bounded(log + [e])
  {
    LogSnoc(log, e);
    assert DeltasSince(log[..|log|]) <= 12;
    forall i | 0 <= i <= |log + [e]| ensures DeltasSince((log + [e])[..i]) <= 12 {
    }
  }

  /** A choice of delta leaves room for one more delta sync. */
  lemma RoomForDelta(w: World, t: Time)
    requires RowOk(w) && w.now <= t && !TooSoon(w.row, w.now) && !NeedsStartup(w.row, t)
    ensures DeltaOk(w)
  {
    var d := DeltasSince(w.log);
    assert w.row.lastStartupAt.value + d * MIN_SYNC_INTERVAL + MIN_SYNC_INTERVAL <= t;
    assert t <= w.row.lastStartupAt.value + 12 * MIN_SYNC_INTERVAL;
  }

  ghost predicate LogOk(log: seq<Event>) {
    Spaced(log) && Anchored(log) && Bounded(log)
  }

  lemma StagesWait(w: World, w': World)
    requires forall q :: q in w.stages ==> StageOk(w, w.stages[q])
    requires w'.row == w.row && DeltasSince(w'.log) == DeltasSince(w.log) && w.now <= w'.now
    ensures forall q :: q in w.stages ==> StageOk(w', w.stages[q])
  {
  }

  /** Moving one replica on leaves the others' stages sound while the row and the deltas stay as they are. */
  lemma StagesKept(w: World, w': World, r: Replica, stage: Stage)
    requires forall q :: q in w.stages ==> StageOk(w, w.stages[q])
    requires w'.row == w.row && DeltasSince(w'.log) == DeltasSince(w.log) && w.now <= w'.now
    requires w'.stages == w.stages[r := stage] && StageOk(w', stage)
    ensures forall q :: q in w'.stages ==> StageOk(w', w'.stages[q])
  {
    StagesWait(w, w');
  }

  /** Appending an event that completes nothing leaves the row in step with the log. */
  lemma RowKept(w: World, w': World, e: Event)
    requires RowOk(w) && w'.row == w.row && w.now <= w'.now && !e.Completed?
    requires w'.log == w.log || w'.log == w.log + [e]
    ensures RowOk(w') && DeltasSince(w'.log) == DeltasSince(w.log)
  {
    LogSnoc(w.log, e);
  }

  /** Steps that leave the row and the log alone. */
  predicate Quiet(s: Step) {
    s.TryLock? || s.CheckInterval? || s.Unlock? || s.Crash? || (s.Persist? && !s.ok)
  }

  lemma QuietStep(w: World, s: Step)
    requires MutualExclusion(w) && Enabled(w, s) && Quiet(s)
    ensures var w' := Next(w, s);
            && MutualExclusion(w') && w'.row == w.row && w'.log == w.log && w'.now == s.at
            && (w'.stages == w.stages ||
                (w'.stages == w.stages[s.replica := StageOf(w', s.replica)] && StageOk(w', StageOf(w', s.replica))))
  {
  }

  lemma PreservedQuietly(w: World, s: Step)
    requires Inv(w) && Enabled(w, s) && Quiet(s)
    ensures Inv(Next(w, s))
  {
    var w' := Next(w, s);
    QuietStep(w, s);
    RowKept(w, w', Fetch(0));
    if w'.stages == w.stages {
      StagesWait(w, w');
    } else {
      StagesKept(w, w', s.replica, StageOf(w', s.replica));
    }
  }

  /** What each new event has to bring for the log to stay sound. */
  predicate Fits(w: World, e: Event) {
    && w.now <= e.at
    && (e.Fetch? ==> !TooSoon(w.row, e.at))
    && (e.Chose? && !e.startup ==> !NeedsStartup(w.row, e.at))
    && (e.Completed? && !e.startup ==> DeltasSince(w.log) <= 11)
  }

  lemma LogGrows(w: World, e: Event)
    requires RowOk(w) && LogOk(w.log) && Ordered(w.log, w.now) && Fits(w, e)
    ensures LogOk(w.log + [e]) && Ordered(w.log + [e], e.at)
  {
    SpacedSnoc(w.log, e);
    AnchoredSnoc(w.log, e);
    BoundedSnoc(w.log, e);
  }

  /** A step that logs an event short of completion keeps the invariant. */
  lemma LoggedStep(w: World, w': World, r: Replica, stage: Stage, e: Event)
    requires Inv(w) && Fits(w, e) && !e.Completed? && w.lock == Some(r)
    requires w' == At(w, r, stage, e.at).(log := w.log + [e])
    requires DeltasSince(w'.log) == DeltasSince(w.log) ==> StageOk(w', stage)
    ensures Inv(w')
  {
    LogGrows(w, e);
    RowKept(w, w', e);
    StagesKept(w, w', r, stage);
  }

  lemma PreservedChoose(w: World, r: Replica, t: Time)
    requires Inv(w) && Enabled(w, Choose(r, t))
    ensures Inv(Next(w, Choose(r, t)))
  {
    var startup := NeedsStartup(w.row, t);
    assert StageOk(w, Due) && w.lock == Some(r);
    if !startup { RoomForDelta(w, t); }
    LoggedStep(w, Next(w, Choose(r, t)), r, Chosen(startup), Chose(t, startup));
  }

  lemma PreservedFetch(w: World, r: Replica, t: Time, ok: bool)
    requires Inv(w) && Enabled(w, FetchDecisions(r, t, ok))
    ensures Inv(Next(w, FetchDecisions(r, t, ok)))
  {
    var stage := StageOf(w, r);
    assert StageOk(w, stage) && w.lock == Some(r);
    LoggedStep(w, Next(w, FetchDecisions(r, t, ok)), r, if ok then Fetched(stage.startup) else Leaving, Fetch(t));
  }

  /** A completed sync moves the row on by at least the minimum interval. */
  lemma RowCompleted(w: World, w': World, t: Time, startup: bool)
    requires RowOk(w) && !TooSoon(w.row, t) && w.now <= t == w'.now && (startup || w.row.lastStartupAt.Some?)
    requires w'.row == PersistRow(w.row, startup, t) && w'.log == w.log + [Completed(t, startup)]
    ensures RowOk(w')
  {
    LogSnoc(w.log, Completed(t, startup));
    var d, d' := DeltasSince(w.log), DeltasSince(w'.log);
    assert d' == if startup then 0 else d + 1;
    assert (d + 1) * MIN_SYNC_INTERVAL == d * MIN_SYNC_INTERVAL + MIN_SYNC_INTERVAL;
    assert w'.row.lastStartupAt.value + d' * MIN_SYNC_INTERVAL <= t;
  }

  lemma PreservedPersist(w: World, r: Replica, t: Time)
    requires Inv(w) && Enabled(w, Persist(r, t, true))
    ensures Inv(Next(w, Persist(r, t, true)))
  {
    var startup, w' := StageOf(w, r).startup, Next(w, Persist(r, t, true));
    var e := Completed(t, startup);
    LogGrows(w, e);
    RowCompleted(w, w', t, startup);
    assert w.lock == Some(r);
    forall q | q in w'.stages ensures w'.stages[q].Idle? || w'.stages[q].Leaving? {
    }
  }

  lemma Preserved(w: World, s: Step)
    requires Inv(w) && Enabled(w, s)
    ensures Inv(Next(w, s))
  {
    match s
    case Choose(r, t) => PreservedChoose(w, r, t);
    case FetchDecisions(r, t, ok) => PreservedFetch(w, r, t, ok);
    case Persist(r, t, ok) => if ok { PreservedPersist(w, r, t); } else { PreservedQuietly(w, s); }
    case _ => PreservedQuietly(w, s);
  }

  lemma {:induction false} Reachable(steps: seq<Step>)
    requires Exec(steps).Some?
    ensures Inv(Exec(steps).value)
  {
    if steps != [] {
      Reachable(steps[..|steps| - 1]);
      Preserved(Exec(steps[..|steps| - 1]).value, steps[|steps| - 1]);
    }
  }

  // ------------------------------------------------------------ theorems

  /** In every run at most one replica is between lock and unlock. */
  lemma AtMostOneSyncing(steps: seq<Step>, r: Replica, q: Replica)
    requires Exec(steps).Some?
    requires !StageOf(Exec(steps).value, r).Idle? && !StageOf(Exec(steps).value, q).Idle?
    ensures r == q
  {
    Reachable(steps);
  }

  /** In every run, once a sync has persisted its time N, every later fetch by any replica comes at N + 2h or later. */
  lemma FetchesAreSpaced(steps: seq<Step>)
    requires Exec(steps).Some?
    ensures Spaced(Exec(steps).value.log)
  {
    Reachable(steps);
  }

  /** Two fetches are at least two hours apart if a sync was persisted between them. */
  lemma RecordedFetchesAreSpaced(steps: seq<Step>, i: nat, k: nat, j: nat)
    requires Exec(steps).Some? && i < k < j < |Exec(steps).value.log|
    requires var log := Exec(steps).value.log; log[i].Fetch? && log[k].Completed? && log[j].Fetch?
    ensures Exec(steps).value.log[j].at >= Exec(steps).value.log[i].at + 7200 * SECOND
  {
    Reachable(steps);
  }

  lemma ExecSnoc(steps: seq<Step>, w: World, step: Step) returns (more: seq<Step>)
    requires Exec(steps) == Some(w) && Enabled(w, step)
    ensures Exec(more) == Some(Next(w, step)) && steps <= more
  {
    more := steps + [step];
    assert more[..|steps|] == steps;
  }

  lemma UntilChosen(steps: seq<Step>, w: World, r: Replica, t: Time) returns (more: seq<Step>, after: World)
    requires Exec(steps) == Some(w) && w.lock.None? && StageOf(w, r).Idle? && w.now <= t && !TooSoon(w.row, t)
    ensures Exec(more) == Some(after) && steps <= more
    ensures after.now == t && after.row == w.row && after.lock == Some(r)
    ensures StageOf(after, r) == Chosen(NeedsStartup(w.row, t))
    ensures after.log == w.log + [Chose(t, NeedsStartup(w.row, t))]
  {
    var s1 := ExecSnoc(steps, w, TryLock(r, t));
    var w1 := Next(w, TryLock(r, t));
    var s2 := ExecSnoc(s1, w1, CheckInterval(r, t));
    var w2 := Next(w1, CheckInterval(r, t));
    more := ExecSnoc(s2, w2, Choose(r, t));
    after := Next(w2, Choose(r, t));
  }

  /** What can keep a sync that has fetched from leaving a trace in the row. */
  datatype Mishap = FetchFails | WriteFails | Crashes

  /** One sync that fetches and comes to grief, all at one instant. */
  lemma Mishandled(steps: seq<Step>, w: World, r: Replica, t: Time, mishap: Mishap)
    returns (more: seq<Step>, after: World)
    requires Exec(steps) == Some(w) && w.lock.None? && StageOf(w, r).Idle? && w.now <= t && !TooSoon(w.row, t)
    ensures Exec(more) == Some(after) && after.lock.None? && StageOf(after, r).Idle? && after.now == t
    ensures after.row == w.row && after.log == w.log + [Chose(t, NeedsStartup(w.row, t)), Fetch(t)]
  {
    var s3, w3 := UntilChosen(steps, w, r, t);
    var fetch := FetchDecisions(r, t, !mishap.FetchFails?);
    var s4 := ExecSnoc(s3, w3, fetch);
    var w4 := Next(w3, fetch);
    match mishap
    case Crashes =>
      more := ExecSnoc(s4, w4, Crash(r, t));
      after := Next(w4, Crash(r, t));
    case FetchFails =>
      more := ExecSnoc(s4, w4, Unlock(r, t));
      after := Next(w4, Unlock(r, t));
    case WriteFails =>
      var s5 := ExecSnoc(s4, w4, Persist(r, t, false));
      var w5 := Next(w4, Persist(r, t, false));
      more := ExecSnoc(s5, w5, Unlock(r, t));
      after := Next(w5, Unlock(r, t));
  }

  lemma FreeMeansIdle(steps: seq<Step>, w: World, r: Replica)
    requires Exec(steps) == Some(w) && w.lock.None?
    ensures StageOf(w, r).Idle?
  {
    Reachable(steps);
  }

  /**
   Without that they need not be: whenever the interval allows a fetch, it may fail, or the write of the row after it,
   or the replica may crash. The next fetch, by any replica, may then follow after any gap, even at once.
   */
  lemma FailedFetchIsRetried(
    steps: seq<Step>, w: World, r: Replica, t: Time, mishap: Mishap, q: Replica, gap: nat)
    returns (more: seq<Step>, after: World)
    requires Exec(steps) == Some(w) && w.lock.None? && w.now <= t && !TooSoon(w.row, t)
    ensures Exec(more) == Some(after)
    ensures after.log == w.log + [Chose(t, NeedsStartup(w.row, t)), Fetch(t)]
                               + [Chose(t + gap, NeedsStartup(w.row, t + gap)), Fetch(t + gap)]
  {
    FreeMeansIdle(steps, w, r);
    var s1, w1 := Mishandled(steps, w, r, t, mishap);
    FreeMeansIdle(s1, w1, q);
    more, after := Mishandled(s1, w1, q, t + gap, FetchFails);
  }

  lemma {:induction false} LastCompletedAt(log: seq<Event>)
    ensures LastCompleted(log).Some? ==>
              exists k :: 0 <= k < |log| && log[k].Completed? && log[k].at == LastCompleted(log).value
  {
    if log != [] && !log[|log| - 1].Completed? {
      LastCompletedAt(log[..|log| - 1]);
    }
  }

  /** A sync was persisted after the fetch at index i. */
  ghost predicate PersistedAfter(log: seq<Event>, i: nat) {
    exists k :: i < k < |log| && log[k].Completed?
  }

  /** A fetch after which nothing was persisted leaves the interval open. */
  lemma IntervalOpen(w: World, i: nat, t: Time)
    requires Inv(w) && i < |w.log| && w.log[i].Fetch? && !PersistedAfter(w.log, i) && w.now <= t
    ensures !TooSoon(w.row, t)
  {
    LastCompletedAt(w.log);
    if w.row.lastSyncAt.Some? {
      var k :| 0 <= k < |w.log| && w.log[k].Completed? && w.log[k].at == w.row.lastSyncAt.value;
      assert k < i;
    }
  }

  /** Whoever holds the lock, if anyone does, crashes. */
  lemma LockFreed(steps: seq<Step>, w: World) returns (more: seq<Step>, after: World)
    requires Exec(steps) == Some(w)
    ensures Exec(more) == Some(after) && steps <= more && after.lock.None?
    ensures after.row == w.row && after.log == w.log && after.now == w.now
  {
    more, after := steps, w;
    if w.lock.Some? {
      more := ExecSnoc(steps, w, Crash(w.lock.value, w.now));
      after := Next(w, Crash(w.lock.value, w.now));
    }
  }

  /**
   In any run whatever, a fetch after which no sync has been persisted can be followed by another at any instant from
   now on, by any replica.
   */
  lemma UnrecordedFetchIsRepeatable(steps: seq<Step>, w: World, i: nat, q: Replica, t: Time) returns (more: seq<Step>)
    requires Exec(steps) == Some(w) && i < |w.log| && w.log[i].Fetch? && !PersistedAfter(w.log, i) && w.now <= t
    ensures steps <= more && Exec(more).Some?
    ensures Exec(more).value.log == w.log + [Chose(t, NeedsStartup(w.row, t)), Fetch(t)]
  {
    Reachable(steps);
    IntervalOpen(w, i, t);
    var s1, w1 := LockFreed(steps, w);
    Reachable(s1);
    var s2, w2 := UntilChosen(s1, w1, q, t);
    more := ExecSnoc(s2, w2, FetchDecisions(q, t, false));
  }

  /** Every fetch from index n of the log on comes at least two hours after an instant. */
  ghost predicate FetchesFrom(log: seq<Event>, n: nat, since: Time) {
    forall j :: n <= j < |log| && log[j].Fetch? ==> log[j].at >= since + 7200 * SECOND
  }

  /** However the run goes on, its later fetches come at least two hours after the fetch at index i. */
  ghost predicate Forced(steps: seq<Step>, i: nat)
    requires Exec(steps).Some? && i < |Exec(steps).value.log|
  {
    forall more: seq<Step> :: steps <= more && Exec(more).Some? ==>
      FetchesFrom(Exec(more).value.log, |Exec(steps).value.log|, Exec(steps).value.log[i].at)
  }

  lemma {:induction false} RunGrows(steps: seq<Step>, more: seq<Step>)
    requires steps <= more && Exec(more).Some?
    ensures Exec(steps).Some?
    ensures Exec(steps).value.log <= Exec(more).value.log && Exec(steps).value.now <= Exec(more).value.now
    ensures forall j :: |Exec(steps).value.log| <= j < |Exec(more).value.log| ==>
                          Exec(more).value.log[j].at >= Exec(steps).value.now
    decreases |more|
  {
    if |steps| < |more| {
      RunGrows(steps, more[..|more| - 1]);
    } else {
      assert steps == more;
    }
  }

  /**
   The two-hour minimum, exactly. In every run, all later fetches are forced to come two hours or more after a fetch if
   and only if a sync has been persisted since, or the two hours have passed already.
   */
  lemma SpacingForcedIff(steps: seq<Step>, i: nat)
    requires Exec(steps).Some? && i < |Exec(steps).value.log| && Exec(steps).value.log[i].Fetch?
    ensures var w := Exec(steps).value;
            Forced(steps, i) <==> PersistedAfter(w.log, i) || w.now >= w.log[i].at + 7200 * SECOND
  {
    var w := Exec(steps).value;
    if !PersistedAfter(w.log, i) && w.now < w.log[i].at + MIN_SYNC_INTERVAL {
      var more := UnrecordedFetchIsRepeatable(steps, w, i, 0, w.now);
      assert Exec(more).value.log[|w.log| + 1] == Fetch(w.now);
      assert !FetchesFrom(Exec(more).value.log, |w.log|, w.log[i].at);
    }
    forall more: seq<Step> | steps <= more && Exec(more).Some? &&
                             (PersistedAfter(w.log, i) || w.now >= w.log[i].at + MIN_SYNC_INTERVAL)
      ensures FetchesFrom(Exec(more).value.log, |w.log|, w.log[i].at)
    {
      RunGrows(steps, more);
      Reachable(more);
      if k :| i < k < |w.log| && w.log[k].Completed? {
        assert Exec(more).value.log[k] == w.log[k] && Exec(more).value.log[i] == w.log[i];
      }
    }
  }

  /** In every run the two times are set together and in order, deltas are anchored, and their number is bounded. */
  lemma SnapshotsAnchorDeltas(steps: seq<Step>)
    requires Exec(steps).Some?
    ensures var row := Exec(steps).value.row;
            && (row.lastSyncAt.Some? <==> row.lastStartupAt.Some?)
            && (row.lastSyncAt.Some? ==> row.lastStartupAt.value <= row.lastSyncAt.value)
    ensures Anchored(Exec(steps).value.log) && Bounded(Exec(steps).value.log)
  {
    Reachable(steps);
    var w := Exec(steps).value;
    if w.row.lastSyncAt.Some? { assert DeltasSince(w.log) * MIN_SYNC_INTERVAL >= 0; }
  }

  /** Every sync asks for a full snapshot exactly when none has completed in the last 24 hours. */
  ghost predicate ChosenByAge(log: seq<Event>) {
    forall i :: 0 <= i < |log| && log[i].Chose? ==>
      (log[i].startup <==>
         LastSnapshot(log[..i]).None? || log[i].at - LastSnapshot(log[..i]).value > 86_400 * SECOND)
  }

  lemma ChosenByAgeSnoc(log: seq<Event>, e: Event)
    requires ChosenByAge(log)
    requires e.Chose? ==> (e.startup <==> LastSnapshot(log).None? || e.at - LastSnapshot(log).value > 86_400 * SECOND)
    ensures ChosenByAge(log + [e])
  {
    LogSnoc(log, e);
  }

  /** In every run the choice between snapshot and delta depends on the last completed snapshot alone. */
  lemma {:induction false} StartupChosenIff(steps: seq<Step>)
    requires Exec(steps).Some?
    ensures ChosenByAge(Exec(steps).value.log)
  {
    if steps != [] {
      var before, last := steps[..|steps| - 1], steps[|steps| - 1];
      StartupChosenIff(before);
      Reachable(before);
      var w, w' := Exec(before).value, Next(Exec(before).value, last);
      if |w'.log| > |w.log| {
        assert w'.log == w.log + [w'.log[|w.log|]];
        ChosenByAgeSnoc(w.log, w'.log[|w.log|]);
      }
    }
  }

  predicate Snapshotted(e: Event) {
    e.Completed? && e.startup
  }

  /** The last completed snapshot of a log: the latest completion of a startup sync. */
  lemma {:induction false} LastSnapshotIs(log: seq<Event>)
    ensures LastSnapshot(log).None? <==> forall k :: 0 <= k < |log| ==> !Snapshotted(log[k])
    ensures LastSnapshot(log).Some? ==>
              exists k :: 0 <= k < |log| && Snapshotted(log[k]) && log[k].at == LastSnapshot(log).value
                          && forall j :: k < j < |log| ==> !Snapshotted(log[j])
  {
    if log != [] {
      var n := |log| - 1;
      var before := log[..n];
      LastSnapshotIs(before);
      assert forall k :: 0 <= k < n ==> before[k] == log[k];
      if !Snapshotted(log[n]) && LastSnapshot(log).Some? {
        var k :| 0 <= k < n && Snapshotted(before[k]) && before[k].at == LastSnapshot(log).value
                 && forall j :: k < j < n ==> !Snapshotted(before[j]);
        assert Snapshotted(log[k]);
      }
    }
  }

  /** One whole sync by one replica, all at one instant. */
  lemma WholeSync(steps: seq<Step>, w: World, r: Replica, t: Time) returns (more: seq<Step>, after: World)
    requires Exec(steps) == Some(w) && w.lock.None? && StageOf(w, r).Idle? && w.now <= t && !TooSoon(w.row, t)
    ensures Exec(more) == Some(after) && after.lock.None? && StageOf(after, r).Idle? && after.now == t
    ensures var startup := NeedsStartup(w.row, t);
            after.row == PersistRow(w.row, startup, t) &&
            DeltasSince(after.log) == if startup then 0 else DeltasSince(w.log) + 1
  {
    var startup := NeedsStartup(w.row, t);
    var s3, w3 := UntilChosen(steps, w, r, t);
    var s4 := ExecSnoc(s3, w3, FetchDecisions(r, t, true));
    var w4 := Next(w3, FetchDecisions(r, t, true));
    var s5 := ExecSnoc(s4, w4, Persist(r, t, true));
    var w5 := Next(w4, Persist(r, t, true));
    more := ExecSnoc(s5, w5, Unlock(r, t));
    after := Next(w5, Unlock(r, t));
    LogSnoc(w.log, Chose(t, startup));
    LogSnoc(w3.log, Fetch(t));
    LogSnoc(w4.log, Completed(t, startup));
  }

  /** The bound is tight: syncing every two hours completes n deltas after a snapshot, for every n up to 12. */
  lemma {:induction false} BoundIsTight(r: Replica, n: nat) returns (steps: seq<Step>, w: World)
    requires n <= 12
    ensures Exec(steps) == Some(w) && DeltasSince(w.log) == n
    ensures w.row == SyncRow(Some(n * MIN_SYNC_INTERVAL), Some(0))
    ensures w.lock.None? && StageOf(w, r).Idle? && w.now == n * MIN_SYNC_INTERVAL
  {
    if n == 0 {
      steps, w := WholeSync([], INITIAL, r, 0);
    } else {
      var before, v := BoundIsTight(r, n - 1);
      var t := v.now + MIN_SYNC_INTERVAL;
      assert t == n * MIN_SYNC_INTERVAL <= STARTUP_CURSOR_TTL;
      assert !TooSoon(v.row, t) && !NeedsStartup(v.row, t);
      steps, w := WholeSync(before, v, r, t);
    }
  }

  // ------------------------------------- one replica running sync() undisturbed

  /** The clock readings and the luck of one call of sync(). */
  datatype Luck = Luck(checkAt: Time, chooseAt: Time, fetched: bool, persistAt: Time, persisted: bool)

  /** What one undisturbed call makes of the row. */
  function RowAfter(row: SyncRow, l: Luck): SyncRow {
    if TooSoon(row, l.checkAt) || !l.fetched || !l.persisted then row
    else PersistRow(row, NeedsStartup(row, l.chooseAt), l.persistAt)
  }

  function Script(row: SyncRow, r: Replica, l: Luck): seq<Step> {
    if TooSoon(row, l.checkAt) then
      [TryLock(r, l.checkAt), CheckInterval(r, l.checkAt), Unlock(r, l.checkAt)]
    else if !l.fetched then
      [TryLock(r, l.checkAt), CheckInterval(r, l.checkAt), Choose(r, l.chooseAt),
       FetchDecisions(r, l.chooseAt, false), Unlock(r, l.chooseAt)]
    else
      [TryLock(r, l.checkAt), CheckInterval(r, l.checkAt), Choose(r, l.chooseAt),
       FetchDecisions(r, l.chooseAt, true), Persist(r, l.persistAt, l.persisted), Unlock(r, l.persistAt)]
  }

  function Play(w: World, steps: seq<Step>): Option<World>
    decreases |steps|
  {
    if steps == [] then Some(w)
    else if Enabled(w, steps[0]) then Play(Next(w, steps[0]), steps[1..])
    else None
  }

  lemma PlayOne(w: World, steps: seq<Step>, i: nat) returns (w': World)
    requires i < |steps| && Enabled(w, steps[i])
    ensures w' == Next(w, steps[i]) && Play(w, steps[i..]) == Play(w', steps[i + 1..])
    ensures i + 1 == |steps| ==> Play(w', steps[i + 1..]) == Some(w')
  {
    w' := Next(w, steps[i]);
    assert steps[i..][0] == steps[i] && steps[i..][1..] == steps[i + 1..];
  }

  /** Taking the steps of sync() one after another does to the row what one undisturbed call does. */
  lemma SoloSync(w: World, r: Replica, l: Luck)
    requires w.lock.None? && StageOf(w, r).Idle? && w.now <= l.checkAt <= l.chooseAt <= l.persistAt
    ensures Play(w, Script(w.row, r, l)).Some?
    ensures var after := Play(w, Script(w.row, r, l)).value;
            after.row == RowAfter(w.row, l) && after.lock.None? && StageOf(after, r).Idle?
  {
    var steps := Script(w.row, r, l);
    assert steps[0..] == steps;
    var w1 := PlayOne(w, steps, 0);
    var w2 := PlayOne(w1, steps, 1);
    assert w2.row == w.row && w2.lock == Some(r) && w2.now == l.checkAt;
    if TooSoon(w.row, l.checkAt) {
      var _ := PlayOne(w2, steps, 2);
    } else {
      SoloRest(w, w2, r, l, steps);
    }
  }

  lemma SoloRest(w: World, w2: World, r: Replica, l: Luck, steps: seq<Step>)
    requires !TooSoon(w.row, l.checkAt) && l.checkAt <= l.chooseAt <= l.persistAt && steps == Script(w.row, r, l)
    requires w2.row == w.row && w2.lock == Some(r) && w2.now == l.checkAt && StageOf(w2, r) == Due
    ensures Play(w2, steps[2..]).Some?
    ensures var after := Play(w2, steps[2..]).value;
            after.row == RowAfter(w.row, l) && after.lock.None? && StageOf(after, r).Idle?
  {
    var w3 := PlayOne(w2, steps, 2);
    var w4 := PlayOne(w3, steps, 3);
    var w5 := PlayOne(w4, steps, 4);
    if l.fetched {
      var _ := PlayOne(w5, steps, 5);
    }
  }
}
