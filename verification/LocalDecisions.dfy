/**
 One active local decision per target, over runs in which the requests being handled interleave their statements: the
 check for an active row and the insert are two statements, and no transaction holds them together.
 */
module LocalDecisions {
  import opened Base
  import opened Decisions
  import opened Signals

  /** One request being handled; it processes its decisions one after another. */
  type Worker = nat

  /**
   A decision that passed its checks and waits for its insert. The rivals only record history for the theorems: the rows
   that other workers have inserted on its target since its check.
   */
  datatype Ticket = Ticket(context: Context, offer: Offer, rivals: set<Uuid>)

  datatype Ingestion = Ingestion(rows: Table, tickets: map<Worker, Ticket>)

  /** A statement that reads or changes the table: a worker's check or insert, or that of another writer. */
  datatype Event =
    | Check(worker: Worker, context: Context, offer: Offer)
    | Insert(worker: Worker, at: Time)
    | Other(write: Write, at: Time)

  function EventAt(e: Event): Time {
    match e
    case Check(_, _, o) => o.attempt.checkAt
    case Insert(_, t) => t
    case Other(_, t) => t
  }

  function WithRival(k: Ticket, target: (string, string), id: Uuid): Ticket {
    if k.offer.Target() == target then k.(rivals := k.rivals + {id}) else k
  }

  function React(s: Ingestion, e: Event): Ingestion {
    match e
    case Check(w, c, o) =>
      if Eligible(c, o) && !Blocked(s.rows, o)
      then s.(tickets := s.tickets[w := Ticket(c, o, {})])
      else s.(tickets := s.tickets - {w})
    case Insert(w, t) =>
      if w !in s.tickets then s
      else
        var Ticket(c, o, _) := s.tickets[w];
        var others := map v | v in s.tickets && v != w :: WithRival(s.tickets[v], o.Target(), o.attempt.uuid);
        Ingestion(Apply(s.rows, Create(o.attempt.uuid, DraftOf(c, o)), t), others)
    case Other(w, t) => s.(rows := Apply(s.rows, w, t))
  }

  function RunEvents(events: seq<Event>): Ingestion {
    if events == [] then Ingestion(map[], map[]) else React(RunEvents(events[..|events| - 1]), events[|events| - 1])
  }

  /**
   The other writers: manual creates do not claim the local origin, and upserts use uuids derived from upstream
   decisions, which random uuids never equal.
   */
  ghost predicate Mannered(events: seq<Event>, derived: iset<Uuid>) {
    forall i :: 0 <= i < |events| ==> MannerlyEvent(events[i], derived)
  }

  ghost predicate MannerlyEvent(e: Event, derived: iset<Uuid>) {
    match e
    case Check(_, _, o) => o.attempt.uuid !in derived
    case Other(Create(u, d), _) => u !in derived && d.origin != LOCAL
    case Other(Upsert(u, d), _) => u in derived && d.origin != LOCAL
    case _ => true
  }

  ghost predicate ClockAdvances(events: seq<Event>) {
    forall i, j :: 0 <= i < j < |events| ==> EventAt(events[i]) <= EventAt(events[j])
  }

  predicate LocalOn(r: Row, scope: string, value: string, now: Time) {
    r.origin == LOCAL && Live(r, now) && r.scope == scope && r.value == value
  }

  ghost predicate OneLocalPerTarget(rows: Table, now: Time) {
    forall u, v :: u in rows && v in rows && u != v && LocalOn(rows[u], rows[v].scope, rows[v].value, now) ==>
                     !LocalOn(rows[v], rows[v].scope, rows[v].value, now)
  }

  /** The event inserts a live row while a row that a rival inserted after the check is still active on the target. */
  ghost predicate Races(s: Ingestion, e: Event) {
    && e.Insert? && e.worker in s.tickets
    && var Ticket(c, o, rivals) := s.tickets[e.worker];
       && o.attempt.uuid !in s.rows && DraftOf(c, o).expiresAt > e.at
       && exists v :: v in rivals && v in s.rows && LocalOn(s.rows[v], o.Target().0, o.Target().1, e.at)
  }

  ghost predicate NoRaces(events: seq<Event>) {
    forall n :: 0 <= n < |events| ==> !Races(RunEvents(events[..n]), events[n])
  }

  /** Local rows never have derived uuids, and any active one on the target of a ticket is a rival of it. */
  ghost predicate TicketsOk(s: Ingestion, now: Time, derived: iset<Uuid>) {
    && (forall u :: u in s.rows && u in derived ==> s.rows[u].origin != LOCAL)
    && (forall w :: w in s.tickets ==> TicketOk(s.rows, s.tickets[w], now, derived))
  }

  ghost predicate TicketOk(rows: Table, k: Ticket, now: Time, derived: iset<Uuid>) {
    && k.offer.attempt.uuid !in derived
    && forall u :: u in rows && LocalOn(rows[u], k.offer.Target().0, k.offer.Target().1, now) ==> u in k.rivals
  }

  /** What other writers leave active and local was so before. */
  lemma OthersAddNoLocal(rows: Table, since: Time, w: Write, t: Time, derived: iset<Uuid>)
    requires since <= t && MannerlyEvent(Other(w, t), derived)
    requires forall u :: u in rows && u in derived ==> rows[u].origin != LOCAL
    ensures var after := Apply(rows, w, t);
            && (forall u :: u in after && u in derived ==> after[u].origin != LOCAL)
            && (forall u :: u in after && after[u].origin == LOCAL && Live(after[u], t) ==>
                              u in rows && after[u] == rows[u] && Live(rows[u], since))
  {
  }

  lemma TicketsCheck(s: Ingestion, since: Time, e: Event, derived: iset<Uuid>)
    requires TicketsOk(s, since, derived) && since <= EventAt(e) && MannerlyEvent(e, derived) && e.Check?
    ensures TicketsOk(React(s, e), EventAt(e), derived)
  {
    var o := e.offer;
    if Eligible(e.context, o) && !Blocked(s.rows, o) {
      forall u | u in s.rows ensures !LocalOn(s.rows[u], o.Target().0, o.Target().1, o.attempt.checkAt) {
        assert u !in ActiveOn(s.rows, o.attempt.dec.scope, o.attempt.dec.value, o.attempt.checkAt);
      }
    }
  }

  lemma TicketsInsert(s: Ingestion, since: Time, w: Worker, t: Time, derived: iset<Uuid>)
    requires TicketsOk(s, since, derived) && since <= t
    ensures TicketsOk(React(s, Insert(w, t)), t, derived)
  {
    if w in s.tickets {
      var k, s' := s.tickets[w], React(s, Insert(w, t));
      forall u | u in s'.rows ensures u == k.offer.attempt.uuid || (u in s.rows && s'.rows[u] == s.rows[u]) {
      }
      forall v | v in s'.tickets ensures TicketOk(s'.rows, s'.tickets[v], t, derived) {
        assert TicketOk(s.rows, s.tickets[v], since, derived);
      }
    }
  }

  lemma TicketsKept(s: Ingestion, since: Time, e: Event, derived: iset<Uuid>)
    requires TicketsOk(s, since, derived) && since <= EventAt(e) && MannerlyEvent(e, derived)
    ensures TicketsOk(React(s, e), EventAt(e), derived)
  {
    match e
    case Check(_, _, _) => TicketsCheck(s, since, e, derived);
    case Insert(w, t) => TicketsInsert(s, since, w, t, derived);
    case Other(w, t) => OthersAddNoLocal(s.rows, since, w, t, derived);
  }

  /** An insert breaks the property exactly when it races. */
  lemma InsertBreaksIff(s: Ingestion, since: Time, w: Worker, t: Time, derived: iset<Uuid>)
    requires TicketsOk(s, since, derived) && since <= t && OneLocalPerTarget(s.rows, since)
    ensures OneLocalPerTarget(React(s, Insert(w, t)).rows, t) <==> !Races(s, Insert(w, t))
  {
    if w in s.tickets {
      var Ticket(c, o, rivals) := s.tickets[w];
      var id, after := o.attempt.uuid, React(s, Insert(w, t)).rows;
      if id !in s.rows {
        assert after == s.rows[id := Inserted(DraftOf(c, o), t)];
        assert LocalOn(after[id], o.Target().0, o.Target().1, t) <==> DraftOf(c, o).expiresAt > t;
        if v :| v in s.rows && LocalOn(s.rows[v], o.Target().0, o.Target().1, t) {
          assert TicketOk(s.rows, s.tickets[w], since, derived) && v in rivals;
          assert LocalOn(after[v], after[id].scope, after[id].value, t);
        }
      }
    }
  }

  lemma EventBreaksIff(s: Ingestion, since: Time, e: Event, derived: iset<Uuid>)
    requires TicketsOk(s, since, derived) && since <= EventAt(e) && MannerlyEvent(e, derived)
    requires OneLocalPerTarget(s.rows, since)
    ensures OneLocalPerTarget(React(s, e).rows, EventAt(e)) <==> !Races(s, e)
  {
    match e
    case Check(_, _, _) =>
    case Insert(w, t) => InsertBreaksIff(s, since, w, t, derived);
    case Other(w, t) => OthersAddNoLocal(s.rows, since, w, t, derived);
  }

  function LastAt(events: seq<Event>): Time {
    if events == [] then 0 else EventAt(events[|events| - 1])
  }

  lemma {:induction false} TicketsAlways(events: seq<Event>, derived: iset<Uuid>, now: Time)
    requires Mannered(events, derived) && ClockAdvances(events) && (events != [] ==> LastAt(events) <= now)
    ensures TicketsOk(RunEvents(events), now, derived)
  {
    if events != [] {
      var before, e := events[..|events| - 1], events[|events| - 1];
      TicketsAlways(before, derived, EventAt(e));
      TicketsKept(RunEvents(before), EventAt(e), e, derived);
    }
  }

  /** In every run without a race, from the last event on, a target has at most one active local decision. */
  lemma {:induction false} OneActiveLocalDecision(events: seq<Event>, derived: iset<Uuid>, now: Time)
    requires Mannered(events, derived) && ClockAdvances(events) && (events != [] ==> LastAt(events) <= now)
    requires NoRaces(events)
    ensures OneLocalPerTarget(RunEvents(events).rows, now)
  {
    if events != [] {
      var n := |events| - 1;
      var before, e := events[..n], events[n];
      forall i | 0 <= i < n ensures before[..i] == events[..i] && before[i] == events[i] {
      }
      OneActiveLocalDecision(before, derived, EventAt(e));
      TicketsAlways(before, derived, EventAt(e));
      EventBreaksIff(RunEvents(before), EventAt(e), e, derived);
    }
  }

  /** Exactly: a run keeps the property after each of its events if and only if it has no race. */
  lemma OnlyRacesBreakIt(events: seq<Event>, derived: iset<Uuid>)
    requires Mannered(events, derived) && ClockAdvances(events)
    ensures NoRaces(events) <==>
            forall n :: 0 <= n < |events| ==> OneLocalPerTarget(RunEvents(events[..n + 1]).rows, EventAt(events[n]))
  {
    forall n | 0 <= n < |events| && NoRaces(events)
      ensures OneLocalPerTarget(RunEvents(events[..n + 1]).rows, EventAt(events[n]))
    {
      var upTo := events[..n + 1];
      forall i | 0 <= i <= n ensures upTo[..i] == events[..i] && upTo[i] == events[i] {
      }
      OneActiveLocalDecision(upTo, derived, EventAt(events[n]));
    }
    forall n | 0 <= n < |events| && OneLocalPerTarget(RunEvents(events[..n + 1]).rows, EventAt(events[n]))
               && (n > 0 ==> OneLocalPerTarget(RunEvents(events[..n]).rows, EventAt(events[n - 1])))
      ensures !Races(RunEvents(events[..n]), events[n])
    {
      var before := events[..n];
      assert events[..n + 1][..n] == before;
      TicketsAlways(before, derived, EventAt(events[n]));
      EventBreaksIff(RunEvents(before), EventAt(events[n]), events[n], derived);
    }
    if forall n :: 0 <= n < |events| ==> OneLocalPerTarget(RunEvents(events[..n + 1]).rows, EventAt(events[n])) {
      forall n | 0 < n < |events| ensures OneLocalPerTarget(RunEvents(events[..n]).rows, EventAt(events[n - 1])) {
        assert OneLocalPerTarget(RunEvents(events[..(n - 1) + 1]).rows, EventAt(events[n - 1]));
      }
    }
  }

  predicate ActsFor(e: Event, w: Worker) {
    (e.Check? || e.Insert?) && e.worker == w
  }

  /** Event j is another worker's insert on the target. */
  ghost predicate InsertsOn(events: seq<Event>, j: nat, w: Worker, target: (string, string))
    requires j < |events|
  {
    && events[j].Insert? && events[j].worker != w
    && var tickets := RunEvents(events[..j]).tickets;
       events[j].worker in tickets && tickets[events[j].worker].offer.Target() == target
  }

  /** Event n is an insert, and between its decision's check and itself another insert on the target comes. */
  ghost predicate Interrupted(events: seq<Event>, n: nat)
    requires n < |events|
  {
    && events[n].Insert?
    && exists i, j :: 0 <= i < j < n && events[i].Check? && events[i].worker == events[n].worker
                      && (forall k :: i < k < n ==> !ActsFor(events[k], events[n].worker))
                      && InsertsOn(events, j, events[n].worker, events[i].offer.Target())
  }

  /** A ticket stems from the worker's last check. */
  lemma {:induction false} CheckOf(events: seq<Event>, w: Worker) returns (i: nat)
    requires w in RunEvents(events).tickets
    ensures i < |events| && events[i].Check? && events[i].worker == w
    ensures events[i].offer == RunEvents(events).tickets[w].offer
    ensures forall k :: i < k < |events| ==> !ActsFor(events[k], w)
  {
    var n := |events| - 1;
    if ActsFor(events[n], w) {
      i := n;
    } else {
      i := CheckOf(events[..n], w);
    }
  }

  /** A rival that was not one before the event was inserted by it. */
  lemma NewRival(s: Ingestion, e: Event, w: Worker, id: Uuid)
    requires w in React(s, e).tickets && id in React(s, e).tickets[w].rivals
    ensures !ActsFor(e, w) && w in s.tickets && s.tickets[w].offer == React(s, e).tickets[w].offer
    ensures id !in s.tickets[w].rivals ==>
              && e.Insert? && e.worker != w && e.worker in s.tickets
              && s.tickets[e.worker].offer.Target() == s.tickets[w].offer.Target()
  {
    match e
    case Check(v, _, _) =>
    case Insert(v, _) =>
    case Other(_, _) =>
  }

  /** A rival was inserted by another worker after that check. */
  lemma {:induction false} RivalSource(events: seq<Event>, w: Worker, id: Uuid) returns (i: nat, j: nat)
    requires w in RunEvents(events).tickets && id in RunEvents(events).tickets[w].rivals
    ensures i < j < |events| && events[i].Check? && events[i].worker == w
    ensures forall k :: i < k < |events| ==> !ActsFor(events[k], w)
    ensures InsertsOn(events, j, w, events[i].offer.Target())
  {
    var n := |events| - 1;
    var before := events[..n];
    NewRival(RunEvents(before), events[n], w, id);
    if id in RunEvents(before).tickets[w].rivals {
      i, j := RivalSource(before, w, id);
      assert before[..j] == events[..j];
    } else {
      i := CheckOf(before, w);
      j := n;
    }
  }

  /** There is no race if no other insert on a decision's target ever comes between its check and its insert. */
  lemma UninterruptedIsRaceFree(events: seq<Event>)
    requires forall n :: 0 <= n < |events| ==> !Interrupted(events, n)
    ensures NoRaces(events)
  {
    forall n | 0 <= n < |events| ensures !Races(RunEvents(events[..n]), events[n]) {
      if Races(RunEvents(events[..n]), events[n]) {
        var w, before := events[n].worker, events[..n];
        var v :| v in RunEvents(before).tickets[w].rivals;
        var i, j := RivalSource(before, w, v);
        assert before[..j] == events[..j] && before[i] == events[i] && before[j] == events[j];
        assert forall k :: i < k < n ==> before[k] == events[k];
        assert InsertsOn(events, j, w, events[i].offer.Target());
        assert Interrupted(events, n);
      }
    }
  }

  /** Two machines report one address at once: both checks pass before either insert, and both rows are active. */
  lemma CheckThenInsertRaces(j: Worker, a: Offer, ca: Context, k: Worker, b: Offer, cb: Context, ta: Time, tb: Time)
    returns (events: seq<Event>)
    requires j != k && a.Target() == b.Target() && a.attempt.uuid != b.attempt.uuid
    requires Eligible(ca, a) && Eligible(cb, b)
    requires a.attempt.checkAt <= b.attempt.checkAt <= ta <= tb
    requires DraftOf(ca, a).expiresAt > tb && DraftOf(cb, b).expiresAt > tb
    ensures events == [Check(j, ca, a), Check(k, cb, b), Insert(j, ta), Insert(k, tb)] && ClockAdvances(events)
    ensures var rows := RunEvents(events).rows;
            && rows.Keys == {a.attempt.uuid, b.attempt.uuid}
            && !OneLocalPerTarget(rows, tb)
  {
    events := [Check(j, ca, a), Check(k, cb, b), Insert(j, ta), Insert(k, tb)];
    var s2 := AfterChecks(j, a, ca, k, b, cb);
    assert events[..3] == [Check(j, ca, a), Check(k, cb, b)] + [Insert(j, ta)];
    var s3 := RunEvents(events[..3]);
    assert events[..3][..2] == [Check(j, ca, a), Check(k, cb, b)];
    assert s3 == React(s2, Insert(j, ta));
    assert s3.rows == map[a.attempt.uuid := Inserted(DraftOf(ca, a), ta)];
    var rows := RunEvents(events).rows;
    assert rows == s3.rows[b.attempt.uuid := Inserted(DraftOf(cb, b), tb)];
    assert LocalOn(rows[a.attempt.uuid], rows[b.attempt.uuid].scope, rows[b.attempt.uuid].value, tb);
  }

  lemma AfterChecks(j: Worker, a: Offer, ca: Context, k: Worker, b: Offer, cb: Context) returns (s: Ingestion)
    requires j != k && Eligible(ca, a) && Eligible(cb, b)
    ensures s == Ingestion(map[], map[j := Ticket(ca, a, {}), k := Ticket(cb, b, {})])
    ensures s == RunEvents([Check(j, ca, a), Check(k, cb, b)])
  {
    var both := [Check(j, ca, a), Check(k, cb, b)];
    assert both[..1] == [Check(j, ca, a)] && both[..1][..0] == [];
    assert RunEvents(both[..1]) == Ingestion(map[], map[j := Ticket(ca, a, {})]);
    s := RunEvents(both);
  }

  /** A worker's batch, with nothing else between its statements. */
  function BatchEvents(w: Worker, c: Context, offers: seq<Offer>, n: nat): seq<Event>
    requires n <= |offers|
  {
    if n == 0 then []
    else BatchEvents(w, c, offers, n - 1) + [Check(w, c, offers[n - 1]), Insert(w, offers[n - 1].attempt.insertAt)]
  }

  /** One decision checked and inserted, with nothing in between. */
  lemma OneDecision(earlier: seq<Event>, w: Worker, c: Context, o: Offer)
    ensures RunEvents(earlier + [Check(w, c, o), Insert(w, o.attempt.insertAt)]).rows
         == Considered(c, RunEvents(earlier).rows, o)
  {
    var done := earlier + [Check(w, c, o), Insert(w, o.attempt.insertAt)];
    var checked := earlier + [Check(w, c, o)];
    assert done[..|checked|] == checked && checked[..|earlier|] == earlier;
  }

  /** Such a batch leaves the rows its decisions leave when considered one after another. */
  lemma {:induction false} BatchIsEvents(before: seq<Event>, w: Worker, c: Context, offers: seq<Offer>, n: nat)
    requires n <= |offers|
    ensures RunEvents(before + BatchEvents(w, c, offers, n)).rows == Ingested(c, RunEvents(before).rows, offers, n)
  {
    if n == 0 {
      assert before + [] == before;
    } else {
      var o, earlier := offers[n - 1], before + BatchEvents(w, c, offers, n - 1);
      BatchIsEvents(before, w, c, offers, n - 1);
      OneDecision(earlier, w, c, o);
      assert before + BatchEvents(w, c, offers, n) == earlier + [Check(w, c, o), Insert(w, o.attempt.insertAt)];
    }
  }
}
