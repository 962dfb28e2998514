/**
 The decisions table and the SQL statements that change or read it, each as one
 atomic function of the table and of the instant NOW() at which it runs.
 */
module Decisions {
  import opened Base

  type Uuid = string

  const UPSTREAM: string := "upstream-capi"
  const LOCAL: string := "local-signal"
  const MANUAL: string := "manual"
  const RETENTION: int := 90 * DAY

  /** One row; its uuid is the key under which the table holds it. */
  datatype Row = Row(
    origin: string, dtype: string, scope: string, value: string,
    durationSecs: int, scenario: Option<string>, sourceMachine: Option<string>, simulated: bool,
    isDeleted: bool, expiresAt: Time, createdAt: Time, updatedAt: Time, deletedAt: Option<Time>)

  type Table = map<Uuid, Row>

  /** The columns a caller supplies; the rest take their defaults. */
  datatype Draft = Draft(
    origin: string, dtype: string, scope: string, value: string,
    duration: int, scenario: Option<string>, sourceMachine: Option<string>, simulated: bool,
    expiresAt: Time)

  /** The six statements that change the table. */
  datatype Write =
    | Create(uuid: Uuid, draft: Draft)
    | Delete(uuid: Uuid)
    | Upsert(uuid: Uuid, draft: Draft)
    | MarkDeleted(uuid: Uuid)
    | Sweep
    | Purge

  function Inserted(d: Draft, now: Time): Row {
    Row(d.origin, d.dtype, d.scope, d.value, TruncDiv(d.duration, SECOND), d.scenario, d.sourceMachine, d.simulated,
        false, d.expiresAt, now, now, None)
  }

  function SoftDeleted(r: Row, now: Time): Row {
    r.(isDeleted := true, deletedAt := Some(now), updatedAt := now)
  }

  function Revived(r: Row, expiresAt: Time, now: Time): Row {
    r.(isDeleted := false, deletedAt := None, expiresAt := expiresAt, updatedAt := now)
  }

  predicate Live(r: Row, now: Time) {
    !r.isDeleted && r.expiresAt > now
  }

  /** The sweep's WHERE clause. */
  predicate Expired(r: Row, now: Time) {
    !r.isDeleted && r.expiresAt <= now
  }

  /** The purge's WHERE clause (a NULL deleted_at fails the comparison). */
  predicate Aged(r: Row, now: Time) {
    r.isDeleted && r.deletedAt.Some? && r.deletedAt.value < now - RETENTION
  }

  function Apply(rows: Table, w: Write, now: Time): Table {
    match w
    case Create(u, d) =>
      // A uuid already present violates the UNIQUE constraint: the statement fails and changes nothing.
      if u in rows then rows else rows[u := Inserted(d, now)]
    case Delete(u) =>
      if u in rows then rows[u := SoftDeleted(rows[u], now)] else rows
    case Upsert(u, d) =>
      if u in rows
      then rows[u := Revived(rows[u], d.expiresAt, now)]
      else rows[u := Inserted(d.(sourceMachine := None), now)]
    case MarkDeleted(u) =>
      if u in rows && rows[u].origin == UPSTREAM then rows[u := SoftDeleted(rows[u], now)] else rows
    case Sweep =>
      map u | u in rows :: if Expired(rows[u], now) then SoftDeleted(rows[u], now) else rows[u]
    case Purge =>
      map u | u in rows && !Aged(rows[u], now) :: rows[u]
  }

  // ---------------------------------------------------------------- reads

  /** What a startup pull selects. */
  function Snapshot(rows: Table, now: Time): set<Uuid> {
    set u | u in rows && Live(rows[u], now)
  }

  /** What a delta pull selects as new. */
  function NewSince(rows: Table, cursor: Time, now: Time): set<Uuid> {
    set u | u in rows && Live(rows[u], now) && rows[u].updatedAt > cursor
  }

  /** What a delta pull selects as deleted. */
  function DeletedSince(rows: Table, cursor: Time): set<Uuid> {
    set u | u in rows && rows[u].isDeleted && rows[u].deletedAt.Some? && rows[u].deletedAt.value > cursor
  }

  /** The rows that currently decide on a target. */
  function ActiveOn(rows: Table, scope: string, value: string, now: Time): set<Uuid> {
    set u | u in rows && Live(rows[u], now) && rows[u].scope == scope && rows[u].value == value
  }

  // ------------------------------------------------------- row lifecycle

  predicate RowOk(r: Row, now: Time) {
    && (r.isDeleted <==> r.deletedAt.Some?)
    && (r.isDeleted ==> r.deletedAt == Some(r.updatedAt))
    && r.createdAt <= r.updatedAt <= now
  }

  ghost predicate TableOk(rows: Table, now: Time) {
    forall u :: u in rows ==> RowOk(rows[u], now)
  }

  datatype Stamped = Stamped(write: Write, at: Time)

  /** The table after a sequence of writes. */
  function RunWrites(rows: Table, ws: seq<Stamped>): Table {
    if ws == [] then rows
    else Apply(RunWrites(rows, ws[..|ws| - 1]), ws[|ws| - 1].write, ws[|ws| - 1].at)
  }

  ghost predicate ClockMoves(start: Time, ws: seq<Stamped>) {
    forall i :: 0 <= i < |ws| ==> start <= ws[i].at && (forall j :: 0 <= j < i ==> ws[j].at <= ws[i].at)
  }

  lemma LifecycleStep(rows: Table, w: Write, since: Time, now: Time)
    requires TableOk(rows, since) && since <= now
    ensures TableOk(Apply(rows, w, now), now)
  {
  }

  /** Whatever sequence of writers runs, every row obeys the lifecycle. */
  lemma {:induction false} LifecycleRun(rows: Table, start: Time, ws: seq<Stamped>)
    requires TableOk(rows, start) && ClockMoves(start, ws)
    ensures TableOk(RunWrites(rows, ws), if ws == [] then start else ws[|ws| - 1].at)
  {
    if ws != [] {
      var before := ws[..|ws| - 1];
      LifecycleRun(rows, start, before);
      LifecycleStep(RunWrites(rows, before), ws[|ws| - 1].write,
                    if before == [] then start else before[|before| - 1].at, ws[|ws| - 1].at);
    }
  }

  /** The two delta selects never overlap, and miss exactly the changed rows that expired undeleted. */
  lemma DeltaSelectsCover(rows: Table, cursor: Time, now: Time)
    requires TableOk(rows, now)
    ensures NewSince(rows, cursor, now) !! DeletedSince(rows, cursor)
    ensures forall u :: u in rows && rows[u].updatedAt > cursor && !Expired(rows[u], now) <==>
                        u in NewSince(rows, cursor, now) + DeletedSince(rows, cursor)
  {
  }

  /** A write stamps every row it touches; a row it does not touch is kept as it is, or purged if it was deleted. */
  lemma WriteFrame(rows: Table, w: Write, now: Time)
    ensures var after := Apply(rows, w, now);
            && (forall u :: u in after ==> after[u].updatedAt == now || (u in rows && after[u] == rows[u]))
            && (forall u :: u in rows && u !in after ==> Aged(rows[u], now))
  {
  }

  /** No write changes what a row decides on: only the sync columns move, and the expiry when a row is upserted. */
  lemma WritesKeepColumns(rows: Table, w: Write, now: Time, u: Uuid)
    requires u in rows && u in Apply(rows, w, now)
    ensures var r, q := rows[u], Apply(rows, w, now)[u];
            && q.origin == r.origin && q.dtype == r.dtype && q.scope == r.scope && q.value == r.value
            && q.durationSecs == r.durationSecs && q.scenario == r.scenario && q.sourceMachine == r.sourceMachine
            && q.simulated == r.simulated && q.createdAt == r.createdAt
            && (q.expiresAt == r.expiresAt || (w.Upsert? && w.uuid == u))
  {
  }

  /** A row appears only by a create or an upsert, undeleted, with the caller's columns; only creates name a machine. */
  lemma NewRowColumns(rows: Table, w: Write, now: Time, u: Uuid)
    requires u !in rows && u in Apply(rows, w, now)
    ensures (w.Create? || w.Upsert?) && w.uuid == u
    ensures var r, d := Apply(rows, w, now)[u], w.draft;
            && r.origin == d.origin && r.dtype == d.dtype && r.scope == d.scope && r.value == d.value
            && r.scenario == d.scenario && r.simulated == d.simulated && r.expiresAt == d.expiresAt
            && r.sourceMachine == (if w.Create? then d.sourceMachine else None)
            && (d.duration >= 0 ==> r.durationSecs * SECOND <= d.duration < (r.durationSecs + 1) * SECOND)
            && (d.duration < 0 ==> (r.durationSecs - 1) * SECOND < d.duration <= r.durationSecs * SECOND)
            && !r.isDeleted && r.deletedAt == None && r.createdAt == r.updatedAt == now
  {
  }

  /** Runs of writers never change what a row decides on either, as long as the row is there. */
  lemma {:induction false} RunsKeepTargets(rows: Table, ws: seq<Stamped>, u: Uuid)
    requires forall i :: 0 <= i <= |ws| ==> u in RunWrites(rows, ws[..i])
    ensures u in rows && u in RunWrites(rows, ws)
    ensures var r, q := rows[u], RunWrites(rows, ws)[u];
            q.origin == r.origin && q.dtype == r.dtype && q.scope == r.scope && q.value == r.value
  {
    assert ws[..0] == [] && ws[..|ws|] == ws;
    if ws != [] {
      var n := |ws| - 1;
      forall i | 0 <= i <= n ensures ws[..n][..i] == ws[..i] {
      }
      RunsKeepTargets(rows, ws[..n], u);
      WritesKeepColumns(RunWrites(rows, ws[..n]), ws[n].write, ws[n].at, u);
    }
  }

  /** The cleaner's tick: a sweep, then a purge. */
  function Cleaned(rows: Table, sweptAt: Time, purgedAt: Time): Table {
    Apply(Apply(rows, Sweep, sweptAt), Purge, purgedAt)
  }

  /** The cleaner never changes what is active at its time or later, and leaves no expired row undeleted. */
  lemma CleanerInvisible(rows: Table, sweptAt: Time, purgedAt: Time, now: Time)
    requires sweptAt <= now
    ensures Snapshot(Cleaned(rows, sweptAt, purgedAt), now) == Snapshot(rows, now)
    ensures forall u :: u in Snapshot(rows, now) ==> Cleaned(rows, sweptAt, purgedAt)[u] == rows[u]
    ensures forall u :: u in Cleaned(rows, sweptAt, purgedAt) ==> !Expired(Cleaned(rows, sweptAt, purgedAt)[u], sweptAt)
  {
  }
}
