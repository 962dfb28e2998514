/** The database behind the decision queries: the decisions table and the machines' cursors, updated in place. */
module DecisionStore {
  import opened Base
  import opened Decisions

  /** A row as a query returns it. */
  datatype Found = Found(uuid: Uuid, row: Row)

  function Uuids(result: seq<Found>): set<Uuid> {
    set f | f in result :: f.uuid
  }

  /** The result holds a row of this uuid. */
  ghost predicate Lists(result: seq<Found>, u: Uuid) {
    exists f :: f in result && f.uuid == u
  }

  lemma ListsUuids(result: seq<Found>, u: Uuid)
    ensures Lists(result, u) <==> u in Uuids(result)
  {
  }

  /** The result of SELECT ... ORDER BY key: each selected row exactly once, in ascending order. */
  ghost predicate IsQuery(result: seq<Found>, rows: Table, selected: set<Uuid>, key: Row -> Time) {
    && Uuids(result) == selected
    && (forall i :: 0 <= i < |result| ==> result[i].uuid in rows && result[i].row == rows[result[i].uuid])
    && (forall i, j :: 0 <= i < j < |result| ==>
                         result[i].uuid != result[j].uuid && key(result[i].row) <= key(result[j].row))
  }

  lemma EarliestExists(rows: Table, todo: set<Uuid>, key: Row -> Time)
    requires todo != {} && todo <= rows.Keys
    ensures exists u :: u in todo && forall v :: v in todo ==> key(rows[u]) <= key(rows[v])
  {
    var u :| u in todo;
    if todo != {u} {
      EarliestExists(rows, todo - {u}, key);
      var w :| w in todo - {u} && forall v :: v in todo - {u} ==> key(rows[w]) <= key(rows[v]);
      var least := if key(rows[u]) <= key(rows[w]) then u else w;
      assert forall v :: v in todo ==> v == u || v in todo - {u};
      assert least in todo && forall v :: v in todo ==> key(rows[least]) <= key(rows[v]);
    } else {
      assert forall v :: v in todo ==> v == u;
    }
  }

  method Query(rows: Table, selected: set<Uuid>, key: Row -> Time) returns (result: seq<Found>)
    requires selected <= rows.Keys
    ensures IsQuery(result, rows, selected, key)
  {
    result := [];
    var todo := selected;
    while todo != {}
      invariant todo <= selected
      invariant IsQuery(result, rows, selected - todo, key)
      invariant forall i, v :: 0 <= i < |result| && v in todo ==> key(result[i].row) <= key(rows[v])
      decreases todo
    {
      EarliestExists(rows, todo, key);
      var u :| u in todo && forall v :: v in todo ==> key(rows[u]) <= key(rows[v]);
      assert u !in Uuids(result);
      assert Uuids(result + [Found(u, rows[u])]) == Uuids(result) + {u};
      todo, result := todo - {u}, result + [Found(u, rows[u])];
    }
  }

  lemma NewestExists(rows: Table, ids: set<Uuid>)
    requires ids != {} && ids <= rows.Keys
    ensures exists u :: u in ids && forall v :: v in ids ==> rows[v].createdAt <= rows[u].createdAt
  {
    EarliestExists(rows, ids, (r: Row) => -r.createdAt);
  }

  class DecisionStore {
    var rows: Table
    var cursors: map<MachineId, Time>

    constructor ()
      ensures rows == map[] && cursors == map[]
    {
      rows, cursors := map[], map[];
    }

    /** The random uuid is drawn by the database; a clash with an existing row fails the statement. */
    method CreateDecision(uuid: Uuid, d: Draft, now: Time) returns (ok: bool)
      modifies this`rows
      ensures ok <==> uuid !in old(rows)
      ensures ok ==>
                rows == old(rows)[uuid := Row(d.origin, d.dtype, d.scope, d.value, TruncDiv(d.duration, SECOND),
                                              d.scenario, d.sourceMachine, d.simulated,
                                              false, d.expiresAt, now, now, None)]
      ensures !ok ==> rows == old(rows)
      ensures rows == Apply(old(rows), Create(uuid, d), now)
    {
      ok := uuid !in rows;
      if ok {
        rows := rows[uuid := Inserted(d, now)];
      }
    }

    /** The newest active row on a target, if there is one. */
    method GetActiveDecision(scope: string, value: string, now: Time) returns (found: Option<Row>)
      ensures found.None? <==> ActiveOn(rows, scope, value, now) == {}
      ensures found.None? <==>
                forall u :: u in rows ==> rows[u].isDeleted || rows[u].expiresAt <= now
                                          || rows[u].scope != scope || rows[u].value != value
      ensures found.Some? ==>
                exists u :: u in rows && rows[u] == found.value && !rows[u].isDeleted && rows[u].expiresAt > now
                            && rows[u].scope == scope && rows[u].value == value
                            && forall v :: v in rows && !rows[v].isDeleted && rows[v].expiresAt > now
                                           && rows[v].scope == scope && rows[v].value == value ==>
                                             rows[v].createdAt <= rows[u].createdAt
    {
      var active := ActiveOn(rows, scope, value, now);
      if active == {} {
        found := None;
        assert forall u :: u in rows ==> u !in active;
      } else {
        NewestExists(rows, active);
        var u :| u in active && forall v :: v in active ==> rows[v].createdAt <= rows[u].createdAt;
        found := Some(rows[u]);
        assert forall v :: v in rows && Live(rows[v], now) && rows[v].scope == scope && rows[v].value == value ==>
                             v in active;
      }
    }

    /**
     One pull, with no other statement between its own: now1 is the instant of the first select, now3 that of the
     cursor write.
     */
    method GetDecisionStream(machine: MachineId, startup: bool, now1: Time, now3: Time)
      returns (newDecisions: seq<Found>, deletedDecisions: seq<Found>)
      modifies this`cursors
      ensures cursors == old(cursors)[machine := now3]
      ensures startup || machine !in old(cursors) ==>
                && IsQuery(newDecisions, rows, Snapshot(rows, now1), (r: Row) => r.createdAt)
                && (forall u :: Lists(newDecisions, u) <==> u in rows && !rows[u].isDeleted && rows[u].expiresAt > now1)
                && deletedDecisions == []
      ensures !startup && machine in old(cursors) ==>
                var c := old(cursors)[machine];
                && IsQuery(newDecisions, rows, NewSince(rows, c, now1), (r: Row) => r.updatedAt)
                && IsQuery(deletedDecisions, rows, DeletedSince(rows, c), DeletionTime)
                && (forall u :: Lists(newDecisions, u) <==>
                      u in rows && !rows[u].isDeleted && rows[u].expiresAt > now1 && rows[u].updatedAt > c)
                && (forall u :: Lists(deletedDecisions, u) <==>
                      u in rows && rows[u].isDeleted && rows[u].deletedAt.Some? && rows[u].deletedAt.value > c)
                && (forall i, j :: 0 <= i < j < |deletedDecisions| ==>
                      var earlier, later := deletedDecisions[i].row.deletedAt, deletedDecisions[j].row.deletedAt;
                      earlier.Some? && later.Some? && earlier.value <= later.value)
    {
      var full, cursor := startup, 0;
      if !full {
        if machine in cursors {
          cursor := cursors[machine];
        } else {
          full := true;
        }
      }

      newDecisions, deletedDecisions := [], [];
      if full {
        newDecisions := Query(rows, Snapshot(rows, now1), (r: Row) => r.createdAt);
      } else {
        newDecisions := Query(rows, NewSince(rows, cursor, now1), (r: Row) => r.updatedAt);
        deletedDecisions := Query(rows, DeletedSince(rows, cursor), DeletionTime);
        forall i | 0 <= i < |deletedDecisions| ensures deletedDecisions[i].row.deletedAt.Some? {
          assert deletedDecisions[i].uuid in Uuids(deletedDecisions);
        }
      }
      cursors := cursors[machine := now3];
      forall u ensures Lists(newDecisions, u) <==> u in Uuids(newDecisions) {
        ListsUuids(newDecisions, u);
      }
      forall u ensures Lists(deletedDecisions, u) <==> u in Uuids(deletedDecisions) {
        ListsUuids(deletedDecisions, u);
      }
    }

    /** Removes the rows soft-deleted more than 90 days ago, and nothing else. */
    method HardDeleteAgedDecisions(now: Time) returns (affected: nat)
      modifies this`rows
      ensures forall u :: u in rows <==>
                u in old(rows) && !(old(rows)[u].isDeleted && old(rows)[u].deletedAt.Some? &&
                                    old(rows)[u].deletedAt.value < now - 7_776_000 * SECOND)
      ensures forall u :: u in rows ==> rows[u] == old(rows)[u]
      ensures affected == |old(rows)| - |rows|
      ensures rows == Apply(old(rows), Purge, now)
    {
      var aged := set u | u in rows && Aged(rows[u], now);
      assert rows.Keys == (rows - aged).Keys + aged;
      affected := |aged|;
      rows := rows - aged;
      assert |rows.Keys| == |rows|;
    }

    /** Soft-deletes every undeleted row that has expired, and nothing else. */
    method SoftDeleteExpiredDecisions(now: Time) returns (affected: nat)
      modifies this`rows
      ensures rows.Keys == old(rows).Keys
      ensures forall u :: u in rows ==>
                rows[u] == if !old(rows)[u].isDeleted && old(rows)[u].expiresAt <= now
                           then old(rows)[u].(isDeleted := true, deletedAt := Some(now), updatedAt := now)
                           else old(rows)[u]
      ensures affected == |set u | u in old(rows) && !old(rows)[u].isDeleted && old(rows)[u].expiresAt <= now|
      ensures rows == Apply(old(rows), Sweep, now)
    {
      var expired := set u | u in rows && Expired(rows[u], now);
      assert expired == set u | u in rows && !rows[u].isDeleted && rows[u].expiresAt <= now;
      affected := |expired|;
      rows := map u | u in rows :: if u in expired then SoftDeleted(rows[u], now) else rows[u];
    }

    method DeleteDecision(uuid: Uuid, now: Time)
      modifies this`rows
      ensures rows == Apply(old(rows), Delete(uuid), now)
      ensures uuid in old(rows) ==>
                rows == old(rows)[uuid := old(rows)[uuid].(isDeleted := true, deletedAt := Some(now), updatedAt := now)]
      ensures uuid !in old(rows) ==> rows == old(rows)
    {
      if uuid in rows {
        rows := rows[uuid := SoftDeleted(rows[uuid], now)];
      }
    }

    /** A row already there is revived with the new expiry; its other columns stay as they were. */
    method UpsertUpstreamDecision(uuid: Uuid, d: Draft, now: Time)
      modifies this`rows
      ensures rows == Apply(old(rows), Upsert(uuid, d), now)
      ensures uuid in old(rows) ==>
                rows == old(rows)[uuid := old(rows)[uuid].(isDeleted := false, deletedAt := None,
                                                           expiresAt := d.expiresAt, updatedAt := now)]
      ensures uuid !in old(rows) ==>
                rows == old(rows)[uuid := Row(d.origin, d.dtype, d.scope, d.value, TruncDiv(d.duration, SECOND),
                                              d.scenario, None, d.simulated, false, d.expiresAt, now, now, None)]
    {
      if uuid in rows {
        rows := rows[uuid := Revived(rows[uuid], d.expiresAt, now)];
      } else {
        rows := rows[uuid := Inserted(d.(sourceMachine := None), now)];
      }
    }

    /** Only rows of upstream origin can be deleted this way. */
    method MarkUpstreamDecisionDeleted(uuid: Uuid, now: Time)
      modifies this`rows
      ensures rows == Apply(old(rows), MarkDeleted(uuid), now)
      ensures if uuid in old(rows) && old(rows)[uuid].origin == "upstream-capi"
              then rows == old(rows)[uuid := old(rows)[uuid].(isDeleted := true, deletedAt := Some(now),
                                                              updatedAt := now)]
              else rows == old(rows)
    {
      if uuid in rows && rows[uuid].origin == UPSTREAM {
        rows := rows[uuid := SoftDeleted(rows[uuid], now)];
      }
    }

    /** One tick of the background cleaner. */
    method Clean(sweptAt: Time, purgedAt: Time) returns (swept: nat, purged: nat)
      modifies this`rows
      ensures rows == Cleaned(old(rows), sweptAt, purgedAt)
      ensures forall now :: sweptAt <= now ==> Snapshot(rows, now) == Snapshot(old(rows), now)
      ensures forall u :: u in rows ==> rows[u].isDeleted || rows[u].expiresAt > sweptAt
      ensures swept == |set u | u in old(rows) && !old(rows)[u].isDeleted && old(rows)[u].expiresAt <= sweptAt|
      ensures purged == |old(rows)| - |rows|
    {
      swept := SoftDeleteExpiredDecisions(sweptAt);
      assert |rows.Keys| == |rows| && |old(rows).Keys| == |old(rows)|;
      purged := HardDeleteAgedDecisions(purgedAt);
      forall now | sweptAt <= now ensures Snapshot(rows, now) == Snapshot(old(rows), now) {
        CleanerInvisible(old(rows), sweptAt, purgedAt, now);
      }
      CleanerInvisible(old(rows), sweptAt, purgedAt, sweptAt);
    }
  }

  function DeletionTime(r: Row): Time {
    match r.deletedAt
    case None => 0
    case Some(t) => t
  }
}
