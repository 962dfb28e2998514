/** An agent following the stream through the store's own pull, and the run steps that pull amounts to. */
module Follower {
  import opened Base
  import opened Decisions
  import opened DecisionStore
  import opened Delivery
  import opened AtomicPulls

  function CursorOf(cursors: map<MachineId, Time>, m: MachineId): Option<Time> {
    if m in cursors then Some(cursors[m]) else None
  }

  /** Pulls once and applies the answer by uuid: New first, then Deleted. */
  method Follow(store: DecisionStore, m: MachineId, full: bool, held: set<Uuid>, now: Time) returns (after: set<Uuid>)
    modifies store`cursors
    ensures forall s: System, a: Agent ::
              s.rows == store.rows && a.cursor == CursorOf(old(store.cursors), m) && a.held == held ==>
                after == Answered(s, a, full, now).held
    ensures CursorOf(store.cursors, m) == Some(now)
    ensures forall n :: n != m ==> CursorOf(store.cursors, n) == CursorOf(old(store.cursors), n)
  {
    var newDecisions, deletedDecisions := store.GetDecisionStream(m, full, now, now);
    after := if full then {} else held;
    ghost var start := after;
    for i := 0 to |newDecisions|
      invariant after == start + Uuids(newDecisions[..i])
    {
      assert Uuids(newDecisions[..i + 1]) == Uuids(newDecisions[..i]) + {newDecisions[i].uuid};
      after := after + {newDecisions[i].uuid};
    }
    assert newDecisions[..|newDecisions|] == newDecisions;
    ghost var added := after;
    for i := 0 to |deletedDecisions|
      invariant after == added - Uuids(deletedDecisions[..i])
    {
      assert Uuids(deletedDecisions[..i + 1]) == Uuids(deletedDecisions[..i]) + {deletedDecisions[i].uuid};
      after := after - {deletedDecisions[i].uuid};
    }
    assert deletedDecisions[..|deletedDecisions|] == deletedDecisions;
  }
}
