/** One call of sync(): the guards, the fetch, applying the response to the decisions table, persisting the state. */
module UpstreamSync {
  import opened Base
  import opened Decisions
  import opened DecisionStore
  import opened SyncProtocol
  import UpstreamUuid

  const DEFAULT_DURATION: int := 24 * HOUR

  /**
   An item of the response as its loop meets it: with the database clock and the server clock at that moment, and
   whether its statement succeeds. The duration is None when it does not parse.
   */
  datatype Item = Item(
    scope: string, value: string, dtype: string, scenario: string, duration: Option<int>,
    at: Time, wall: Time, stored: bool)

  datatype Response = Response(added: seq<Item>, deleted: seq<Item>)

  type Naming = (string, string) -> Uuid

  function Lifetime(i: Item): int {
    if i.duration.None? || i.duration.value == 0 then DEFAULT_DURATION else i.duration.value
  }

  function Expiry(i: Item): Time {
    i.wall + Lifetime(i)
  }

  function DraftOf(i: Item): Draft {
    Draft(UPSTREAM, i.dtype, i.scope, i.value, Lifetime(i), Some(i.scenario), None, false, Expiry(i))
  }

  /** The first loop over the response. */
  function UpsertAll(rows: Table, items: seq<Item>, uuid: Naming): Table {
    if items == [] then rows
    else
      var before, i := UpsertAll(rows, items[..|items| - 1], uuid), items[|items| - 1];
      if i.stored then Apply(before, Upsert(uuid(i.scope, i.value), DraftOf(i)), i.at) else before
  }

  /** The second loop over the response. */
  function MarkAll(rows: Table, items: seq<Item>, uuid: Naming): Table {
    if items == [] then rows
    else
      var before, i := MarkAll(rows, items[..|items| - 1], uuid), items[|items| - 1];
      if i.stored then Apply(before, MarkDeleted(uuid(i.scope, i.value)), i.at) else before
  }

  function Applied(rows: Table, resp: Response, uuid: Naming): Table {
    MarkAll(UpsertAll(rows, resp.added, uuid), resp.deleted, uuid)
  }

  function CountStored(items: seq<Item>): nat {
    if items == [] then 0 else CountStored(items[..|items| - 1]) + (if items[|items| - 1].stored then 1 else 0)
  }

  // --------------------------------------------- the map update it amounts to

  predicate Hits(i: Item, u: Uuid, uuid: Naming) {
    i.stored && uuid(i.scope, i.value) == u
  }

  /** The last item to reach a uuid. */
  function LastHit(items: seq<Item>, u: Uuid, uuid: Naming): (k: Option<nat>)
    ensures k.None? ==> forall j :: 0 <= j < |items| ==> !Hits(items[j], u, uuid)
    ensures k.Some? ==> k.value < |items| && Hits(items[k.value], u, uuid) &&
                        forall j :: k.value < j < |items| ==> !Hits(items[j], u, uuid)
  {
    if items == [] then None
    else if Hits(items[|items| - 1], u, uuid) then Some(|items| - 1)
    else LastHit(items[..|items| - 1], u, uuid)
  }

  /** The first item to reach a uuid. */
  function FirstHit(items: seq<Item>, u: Uuid, uuid: Naming): (k: Option<nat>)
    ensures k.None? ==> forall j :: 0 <= j < |items| ==> !Hits(items[j], u, uuid)
    ensures k.Some? ==> k.value < |items| && Hits(items[k.value], u, uuid) &&
                        forall j :: 0 <= j < k.value ==> !Hits(items[j], u, uuid)
  {
    if items == [] then None
    else
      match FirstHit(items[..|items| - 1], u, uuid)
      case Some(k) => Some(k)
      case None => if Hits(items[|items| - 1], u, uuid) then Some(|items| - 1) else None
  }

  function Lookup(rows: Table, u: Uuid): Option<Row> {
    if u in rows then Some(rows[u]) else None
  }

  /** A row after the new decisions: an existing one is revived by the last hit, a missing one is made by the first. */
  function AfterAdded(row: Option<Row>, items: seq<Item>, u: Uuid, uuid: Naming): Option<Row> {
    match LastHit(items, u, uuid)
    case None => row
    case Some(k) =>
      var base := match row
        case Some(r) => r
        case None => Inserted(DraftOf(items[FirstHit(items, u, uuid).value]), items[FirstHit(items, u, uuid).value].at);
      Some(Revived(base, Expiry(items[k]), items[k].at))
  }

  /** A row after the deleted decisions: only one of upstream origin is deleted, as of the last hit. */
  function AfterDeleted(row: Option<Row>, items: seq<Item>, u: Uuid, uuid: Naming): Option<Row> {
    match LastHit(items, u, uuid)
    case None => row
    case Some(k) =>
      match row
      case Some(r) => if r.origin == UPSTREAM then Some(SoftDeleted(r, items[k].at)) else row
      case None => None
  }

  lemma {:induction false} UpsertAllRow(rows: Table, items: seq<Item>, uuid: Naming, u: Uuid)
    ensures Lookup(UpsertAll(rows, items, uuid), u) == AfterAdded(Lookup(rows, u), items, u, uuid)
  {
    if items != [] {
      UpsertAllRow(rows, items[..|items| - 1], uuid, u);
    }
  }

  lemma {:induction false} MarkAllRow(rows: Table, items: seq<Item>, uuid: Naming, u: Uuid)
    ensures Lookup(MarkAll(rows, items, uuid), u) == AfterDeleted(Lookup(rows, u), items, u, uuid)
  {
    if items != [] {
      MarkAllRow(rows, items[..|items| - 1], uuid, u);
    }
  }

  /** Applying a response is a map update, uuid by uuid, whatever the response repeats and whichever statements fail. */
  lemma ResponseIsMapUpdate(rows: Table, resp: Response, uuid: Naming, u: Uuid)
    ensures Lookup(Applied(rows, resp, uuid), u) ==
            AfterDeleted(AfterAdded(Lookup(rows, u), resp.added, u, uuid), resp.deleted, u, uuid)
  {
    UpsertAllRow(rows, resp.added, uuid, u);
    MarkAllRow(UpsertAll(rows, resp.added, uuid), resp.deleted, uuid, u);
  }

  // ------------------------------------------------- the same, by scope and value

  predicate Names(i: Item, scope: string, value: string) {
    i.scope == scope && i.value == value
  }

  /** No two targets of the response share a uuid, and no row of another origin has one of theirs. */
  ghost predicate CollisionFree(rows: Table, resp: Response, uuid: Naming) {
    var items := resp.added + resp.deleted;
    && (forall i, j :: 0 <= i < |items| && 0 <= j < |items| &&
                       uuid(items[i].scope, items[i].value) == uuid(items[j].scope, items[j].value) ==>
                         Names(items[i], items[j].scope, items[j].value))
    && (forall i :: 0 <= i < |items| && uuid(items[i].scope, items[i].value) in rows ==>
                      rows[uuid(items[i].scope, items[i].value)].origin == UPSTREAM)
  }

  ghost predicate AllStored(items: seq<Item>) {
    forall i :: 0 <= i < |items| ==> items[i].stored
  }

  /** How many items' statements succeed. */
  lemma {:induction false} CountStoredIs(items: seq<Item>)
    ensures CountStored(items) == |set k | 0 <= k < |items| && items[k].stored|
  {
    if items != [] {
      var n := |items| - 1;
      CountStoredIs(items[..n]);
      var before, all := set k | 0 <= k < n && items[..n][k].stored, set k | 0 <= k < |items| && items[k].stored;
      assert all == if items[n].stored then before + {n} else before;
    }
  }

  /** Every target in Deleted is dead afterwards, as of its last occurrence, and nothing else of its row has changed. */
  lemma DeletedAreDead(rows: Table, resp: Response, uuid: Naming, k: nat)
    requires CollisionFree(rows, resp, uuid) && AllStored(resp.deleted) && k < |resp.deleted|
    ensures var u := uuid(resp.deleted[k].scope, resp.deleted[k].value);
            var after := Applied(rows, resp, uuid);
            && (u in after ==> after[u].isDeleted && after[u].origin == "upstream-capi")
            && (u in rows ==> u in after)
            && (u in after && LastNaming(resp.deleted, k) ==>
                  after[u].deletedAt == Some(resp.deleted[k].at) && after[u].updatedAt == resp.deleted[k].at)
            && (u in rows ==> SameTarget(rows[u], after[u]))
  {
    var i := resp.deleted[k];
    var u := uuid(i.scope, i.value);
    ResponseIsMapUpdate(rows, resp, uuid, u);
    assert Hits(i, u, uuid);
    assert (resp.added + resp.deleted)[|resp.added| + k] == i;
    forall j | 0 <= j < |resp.deleted| && Hits(resp.deleted[j], u, uuid)
      ensures Names(resp.deleted[j], i.scope, i.value)
    {
      assert (resp.added + resp.deleted)[|resp.added| + j] == resp.deleted[j];
    }
  }

  /** No later item of the list has the target of the item at k. */
  ghost predicate LastNaming(items: seq<Item>, k: nat)
    requires k < |items|
  {
    forall j :: k < j < |items| ==> !Names(items[j], items[k].scope, items[k].value)
  }

  /** Two states of a row that decide on the same target in the same way. */
  predicate SameTarget(r: Row, q: Row) {
    && r.origin == q.origin && r.dtype == q.dtype && r.scope == q.scope && r.value == q.value
    && r.durationSecs == q.durationSecs && r.scenario == q.scenario && r.sourceMachine == q.sourceMachine
    && r.simulated == q.simulated && r.createdAt == q.createdAt
  }

  /** The seconds the duration of an item stands for: a zero or unparsable one stands for 24 hours. */
  lemma LifetimeIs(i: Item)
    ensures i.duration.Some? && i.duration.value != 0 ==> DraftOf(i).duration == i.duration.value
    ensures i.duration == None || i.duration == Some(0) ==> DraftOf(i).duration == 86_400 * SECOND
    ensures DraftOf(i).expiresAt == i.wall + DraftOf(i).duration
  {
  }

  /**
   Every target in New and not in Deleted is live until the duration of its last occurrence is over, counted from when
   it was read; a zero or unparsable duration counts as 24 hours. A row that existed keeps its other columns; one that
   did not takes them from the first occurrence.
   */
  lemma AddedAreLive(rows: Table, resp: Response, uuid: Naming, first: nat, last: nat)
    requires CollisionFree(rows, resp, uuid) && AllStored(resp.added) && first <= last < |resp.added|
    requires var i := resp.added[last];
             && Names(resp.added[first], i.scope, i.value)
             && (forall j :: 0 <= j < first || last < j < |resp.added| ==> !Names(resp.added[j], i.scope, i.value))
             && (forall j :: 0 <= j < |resp.deleted| ==> !Names(resp.deleted[j], i.scope, i.value))
    ensures var i := resp.added[last];
            var u := uuid(i.scope, i.value);
            var after := Applied(rows, resp, uuid);
            && u in after && !after[u].isDeleted && after[u].deletedAt == None && after[u].updatedAt == i.at
            && (i.duration.Some? && i.duration.value != 0 ==> after[u].expiresAt == i.wall + i.duration.value)
            && (i.duration == None || i.duration == Some(0) ==> after[u].expiresAt == i.wall + 86_400 * SECOND)
            && after[u].origin == "upstream-capi"
            && (u in rows ==> SameTarget(rows[u], after[u]))
            && (u !in rows ==>
                  var f := resp.added[first];
                  && after[u].dtype == f.dtype && after[u].scenario == Some(f.scenario) && after[u].createdAt == f.at
                  && after[u].scope == f.scope == i.scope && after[u].value == f.value == i.value
                  && after[u].sourceMachine == None && !after[u].simulated
                  && (f.duration.Some? && f.duration.value != 0 ==>
                        after[u].durationSecs == TruncDiv(f.duration.value, SECOND))
                  && (f.duration == None || f.duration == Some(0) ==> after[u].durationSecs == 86_400))
  {
    var i := resp.added[last];
    var u := uuid(i.scope, i.value);
    var items := resp.added + resp.deleted;
    ResponseIsMapUpdate(rows, resp, uuid, u);
    forall j | 0 <= j < |items|
      ensures uuid(items[j].scope, items[j].value) == u ==> Names(items[j], i.scope, i.value)
    {
      assert items[last] == i;
    }
    forall j | 0 <= j < |resp.added|
      ensures Hits(resp.added[j], u, uuid) <==> Names(resp.added[j], i.scope, i.value)
    {
      assert items[j] == resp.added[j];
    }
    forall j | 0 <= j < |resp.deleted| ensures !Hits(resp.deleted[j], u, uuid) {
      assert items[|resp.added| + j] == resp.deleted[j];
    }
    assert LastHit(resp.added, u, uuid) == Some(last) && FirstHit(resp.added, u, uuid) == Some(first);
    assert items[last] == i;
  }

  /**
   Every row the response does not reach is unchanged: those of another origin, and those that no item names whose
   statement succeeds.
   */
  lemma OthersUnchanged(rows: Table, resp: Response, uuid: Naming, u: Uuid)
    requires CollisionFree(rows, resp, uuid)
    requires (u in rows && rows[u].origin != UPSTREAM) ||
             (forall j :: 0 <= j < |resp.added + resp.deleted| && (resp.added + resp.deleted)[j].stored ==>
                uuid((resp.added + resp.deleted)[j].scope, (resp.added + resp.deleted)[j].value) != u)
    ensures u in Applied(rows, resp, uuid) <==> u in rows
    ensures u in rows ==> Applied(rows, resp, uuid)[u] == rows[u]
  {
    assert Lookup(Applied(rows, resp, uuid), u).Some? <==> u in Applied(rows, resp, uuid);
    var items := resp.added + resp.deleted;
    ResponseIsMapUpdate(rows, resp, uuid, u);
    forall j | 0 <= j < |items| ensures !Hits(items[j], u, uuid) {
    }
    forall j | 0 <= j < |resp.added| ensures !Hits(resp.added[j], u, uuid) {
      assert items[j] == resp.added[j];
    }
    forall j | 0 <= j < |resp.deleted| ensures !Hits(resp.deleted[j], u, uuid) {
      assert items[|resp.added| + j] == resp.deleted[j];
    }
    assert LastHit(resp.added, u, uuid).None? && LastHit(resp.deleted, u, uuid).None?;
  }

  /** With the derived uuids, NUL-free scopes and digests that do not collide, no two targets share one. */
  lemma DerivedUuidsCollisionFree(rows: Table, resp: Response, sha1: string -> UpstreamUuid.Digest)
    requires var items := resp.added + resp.deleted;
             && (forall i :: 0 <= i < |items| ==> UpstreamUuid.NUL !in items[i].scope)
             && (forall i, j :: 0 <= i < |items| && 0 <= j < |items| ==>
                   !UpstreamUuid.Collide(sha1, UpstreamUuid.Message(items[i].scope, items[i].value),
                                         UpstreamUuid.Message(items[j].scope, items[j].value)))
             && (forall i :: 0 <= i < |items| && Derived(sha1)(items[i].scope, items[i].value) in rows ==>
                               rows[Derived(sha1)(items[i].scope, items[i].value)].origin == UPSTREAM)
    ensures CollisionFree(rows, resp, Derived(sha1))
  {
    var items := resp.added + resp.deleted;
    forall i, j | 0 <= i < |items| && 0 <= j < |items| &&
                  Derived(sha1)(items[i].scope, items[i].value) == Derived(sha1)(items[j].scope, items[j].value)
      ensures Names(items[i], items[j].scope, items[j].value)
    {
      UpstreamUuid.UuidsDistinguish(sha1, items[i].scope, items[i].value, items[j].scope, items[j].value);
    }
  }

  function Derived(sha1: string -> UpstreamUuid.Digest): Naming {
    (scope, value) => UpstreamUuid.UuidOf(sha1(UpstreamUuid.Message(scope, value)))
  }

  // ------------------------------------------------------------ the syncer

  function LiveUpstream(rows: Table): nat {
    |set u | u in rows && rows[u].origin == UPSTREAM && !rows[u].isDeleted|
  }

  datatype SyncOutcome =
    | LockHeld
    | IntervalNotElapsed
    | FetchFailed(startup: bool)
    | Synced(startup: bool, added: nat, deleted: nat)

  /** The clock readings of one call, what the API answers, and whether the state row can be written. */
  datatype Surroundings = Surroundings(
    checkAt: Time, chooseAt: Time, response: Option<Response>, persistAt: Time, persists: bool,
    token: string, tokenExpiresAt: Time)

  class Syncer {
    const store: DecisionStore
    const uuid: Naming
    var lockHeld: bool
    var lastSyncAt: Option<Time>
    var lastStartupAt: Option<Time>
    var token: string
    var tokenExpiresAt: Time
    var decisionCount: nat

    constructor (store: DecisionStore, uuid: Naming)
      ensures this.store == store && this.uuid == uuid && !lockHeld && SharedRow() == SyncRow(None, None)
    {
      this.store, this.uuid, lockHeld := store, uuid, false;
      lastSyncAt, lastStartupAt, token, tokenExpiresAt, decisionCount := None, None, "", 0, 0;
    }

    function SharedRow(): SyncRow
      reads this`lastSyncAt, this`lastStartupAt
    {
      SyncRow(lastSyncAt, lastStartupAt)
    }

    method Sync(s: Surroundings) returns (outcome: SyncOutcome)
      modifies this, store`rows
      ensures lockHeld == old(lockHeld)
      ensures old(lockHeld) ==> outcome == LockHeld && SharedRow() == old(SharedRow())
      ensures !old(lockHeld) ==> SharedRow() == RowAfter(
                old(SharedRow()), Luck(s.checkAt, s.chooseAt, s.response.Some?, s.persistAt, s.persists))
      ensures !old(lockHeld) ==>
                outcome == if TooSoon(old(SharedRow()), s.checkAt) then IntervalNotElapsed
                           else var startup := NeedsStartup(old(SharedRow()), s.chooseAt);
                                match s.response
                                case None => FetchFailed(startup)
                                case Some(resp) => Synced(startup, CountStored(resp.added), CountStored(resp.deleted))
      ensures store.rows == if outcome.Synced? then Applied(old(store.rows), s.response.value, uuid)
                            else old(store.rows)
      ensures !old(lockHeld) ==> (outcome.IntervalNotElapsed? <==>
                old(lastSyncAt).Some? && s.checkAt - old(lastSyncAt).value < 7200 * SECOND)
      ensures outcome.FetchFailed? || outcome.Synced? ==>
                (outcome.startup <==>
                   old(lastStartupAt).None? || s.chooseAt - old(lastStartupAt).value > 86_400 * SECOND)
      ensures if outcome.Synced? && s.persists
              then && lastSyncAt == Some(s.persistAt)
                   && lastStartupAt == (if outcome.startup then Some(s.persistAt) else old(lastStartupAt))
                   && token == s.token && tokenExpiresAt == s.tokenExpiresAt
                   && decisionCount == |set u | u in store.rows && store.rows[u].origin == "upstream-capi"
                                                && !store.rows[u].isDeleted|
              else && lastSyncAt == old(lastSyncAt) && lastStartupAt == old(lastStartupAt)
                   && token == old(token) && tokenExpiresAt == old(tokenExpiresAt)
                   && decisionCount == old(decisionCount)
    {
      if lockHeld {
        return LockHeld;
      }
      lockHeld := true;
      outcome := SyncLocked(s);
      lockHeld := false;
    }

    /** What happens between taking the lock and the deferred unlock. */
    method SyncLocked(s: Surroundings) returns (outcome: SyncOutcome)
      modifies this`lastSyncAt, this`lastStartupAt, this`token, this`tokenExpiresAt, this`decisionCount, store`rows
      ensures SharedRow() == RowAfter(
                old(SharedRow()), Luck(s.checkAt, s.chooseAt, s.response.Some?, s.persistAt, s.persists))
      ensures outcome == if TooSoon(old(SharedRow()), s.checkAt) then IntervalNotElapsed
                         else var startup := NeedsStartup(old(SharedRow()), s.chooseAt);
                              match s.response
                              case None => FetchFailed(startup)
                              case Some(resp) => Synced(startup, CountStored(resp.added), CountStored(resp.deleted))
      ensures store.rows == if outcome.Synced? then Applied(old(store.rows), s.response.value, uuid)
                            else old(store.rows)
      ensures outcome.IntervalNotElapsed? <==>
                old(lastSyncAt).Some? && s.checkAt - old(lastSyncAt).value < 7200 * SECOND
      ensures outcome.FetchFailed? || outcome.Synced? ==>
                (outcome.startup <==>
                   old(lastStartupAt).None? || s.chooseAt - old(lastStartupAt).value > 86_400 * SECOND)
      ensures if outcome.Synced? && s.persists
              then && lastSyncAt == Some(s.persistAt)
                   && lastStartupAt == (if outcome.startup then Some(s.persistAt) else old(lastStartupAt))
                   && token == s.token && tokenExpiresAt == s.tokenExpiresAt
                   && decisionCount == |set u | u in store.rows && store.rows[u].origin == "upstream-capi"
                                                && !store.rows[u].isDeleted|
              else && lastSyncAt == old(lastSyncAt) && lastStartupAt == old(lastStartupAt)
                   && token == old(token) && tokenExpiresAt == old(tokenExpiresAt)
                   && decisionCount == old(decisionCount)
    {
      if lastSyncAt.Some? {
        var elapsed := s.checkAt - lastSyncAt.value;
        if elapsed < MIN_SYNC_INTERVAL {
          return IntervalNotElapsed;
        }
      }
      var startup := lastStartupAt.None? || s.chooseAt - lastStartupAt.value > STARTUP_CURSOR_TTL;
      if s.response.None? {
        return FetchFailed(startup);
      }
      var newCount, deletedCount := ApplyResponse(s.response.value);
      if s.persists {
        lastSyncAt := Some(s.persistAt);
        if startup {
          lastStartupAt := Some(s.persistAt);
        }
        token, tokenExpiresAt := s.token, s.tokenExpiresAt;
        decisionCount := LiveUpstream(store.rows);
      }
      outcome := Synced(startup, newCount, deletedCount);
    }

    /** The two loops over the response. */
    method ApplyResponse(resp: Response) returns (newCount: nat, deletedCount: nat)
      modifies store`rows
      ensures store.rows == Applied(old(store.rows), resp, uuid)
      ensures newCount == CountStored(resp.added) && deletedCount == CountStored(resp.deleted)
    {
      ghost var start := store.rows;
      newCount := 0;
      for k := 0 to |resp.added|
        invariant store.rows == UpsertAll(start, resp.added[..k], uuid)
        invariant newCount == CountStored(resp.added[..k])
      {
        assert resp.added[..k + 1][..k] == resp.added[..k];
        var d := resp.added[k];
        var duration := match d.duration case None => 0 case Some(n) => n;
        if duration == 0 {
          duration := 24 * HOUR;
        }
        var decision := Draft(UPSTREAM, d.dtype, d.scope, d.value, duration, Some(d.scenario), None, false,
                              d.wall + duration);
        if d.stored {
          store.UpsertUpstreamDecision(uuid(d.scope, d.value), decision, d.at);
          newCount := newCount + 1;
        }
      }
      assert resp.added[..|resp.added|] == resp.added;
      ghost var middle := store.rows;
      deletedCount := 0;
      for k := 0 to |resp.deleted|
        invariant store.rows == MarkAll(middle, resp.deleted[..k], uuid)
        invariant deletedCount == CountStored(resp.deleted[..k])
      {
        assert resp.deleted[..k + 1][..k] == resp.deleted[..k];
        var d := resp.deleted[k];
        if d.stored {
          store.MarkUpstreamDecisionDeleted(uuid(d.scope, d.value), d.at);
          deletedCount := deletedCount + 1;
        }
      }
      assert resp.deleted[..|resp.deleted|] == resp.deleted;
    }
  }
}
