/** Signal ingestion: turning an agent's batch of signals into rows of the decisions table. */
module Signals {
  import opened Base
  import opened Decisions
  import opened DecisionStore
  import Allowlists

  const MAX_SIGNAL_BATCH: nat := 250
  const MAX_SCENARIO_BYTES: nat := 1024
  const MAX_LABELS_BYTES: nat := 4096

  /** net.ParseIP and net.ParseCIDR succeeding, and strings.ToUpper. */
  datatype Parsers = Parsers(isIP: string -> bool, isCIDR: string -> bool, toUpper: string -> string)

  predicate DecisionFields(p: Parsers, dtype: string, scope: string, value: string) {
    && (dtype == "ban" || dtype == "captcha")
    && value != ""
    && match scope
       case "Ip" => p.isIP(value)
       case "Range" => p.isCIDR(value)
       case "Country" => |value| == 2 && p.toUpper(value) == value
       case _ => false
  }

  /** A decision inside a signal; its duration is None when it is absent or does not parse. */
  datatype SignalDecision = SignalDecision(dtype: string, scope: string, value: string, duration: Option<int>)

  /**
   A decision as the loop meets it: with the database clock at its three statements (the allowlist check, the check for
   an active row, the insert), the server clock before the insert, and the random uuid its row would get.
   */
  datatype Attempt = Attempt(
    dec: SignalDecision, listAt: Time, checkAt: Time, wall: Time, insertAt: Time, uuid: Uuid)

  /** A signal; storable says whether its own insert succeeds. */
  datatype Signal = Signal(scenario: string, labelsBytes: nat, storable: bool, attempts: seq<Attempt>)

  /** An attempt together with the scenario of its signal. */
  datatype Offer = Offer(scenario: string, attempt: Attempt) {
    function Target(): (string, string) { (attempt.dec.scope, attempt.dec.value) }
  }

  /** What does not change during a batch. */
  datatype Context = Context(machine: string, defaultDuration: int, parsers: Parsers, entries: Allowlists.Entries)

  predicate Accepted(s: Signal) {
    |s.scenario| <= MAX_SCENARIO_BYTES && s.labelsBytes <= MAX_LABELS_BYTES && s.storable
  }

  function OffersOf(s: Signal): seq<Offer> {
    seq(|s.attempts|, i requires 0 <= i < |s.attempts| => Offer(s.scenario, s.attempts[i]))
  }

  /** The decisions of the accepted signals, in order. */
  function Offers(signals: seq<Signal>): seq<Offer> {
    if signals == [] then []
    else
      var s := signals[|signals| - 1];
      Offers(signals[..|signals| - 1]) + (if Accepted(s) then OffersOf(s) else [])
  }

  predicate Eligible(c: Context, o: Offer) {
    var d := o.attempt.dec;
    && d.scope != "" && d.value != ""
    && DecisionFields(c.parsers, d.dtype, d.scope, d.value)
    && !Allowlists.IsAllowlisted(c.entries, d.scope, d.value, o.attempt.listAt)
  }

  function DraftOf(c: Context, o: Offer): Draft {
    var d := o.attempt.dec;
    var duration := match d.duration case None => c.defaultDuration case Some(n) => n;
    Draft(LOCAL, d.dtype, d.scope, d.value, duration, Some(o.scenario), Some(c.machine), false,
          o.attempt.wall + duration)
  }

  predicate Blocked(rows: Table, o: Offer) {
    ActiveOn(rows, o.attempt.dec.scope, o.attempt.dec.value, o.attempt.checkAt) != {}
  }

  /** One decision considered: stored if it is eligible and no active row decides on its target. */
  function Considered(c: Context, rows: Table, o: Offer): Table {
    if Eligible(c, o) && !Blocked(rows, o)
    then Apply(rows, Create(o.attempt.uuid, DraftOf(c, o)), o.attempt.insertAt)
    else rows
  }

  /** The table after the first n offers. */
  function Ingested(c: Context, rows: Table, offers: seq<Offer>, n: nat): Table
    requires n <= |offers|
  {
    if n == 0 then rows else Considered(c, Ingested(c, rows, offers, n - 1), offers[n - 1])
  }

  function IngestedAll(c: Context, rows: Table, offers: seq<Offer>): Table {
    Ingested(c, rows, offers, |offers|)
  }

  // ------------------------------------------------------------ the service

  datatype StoredSignal = StoredSignal(machine: string, scenario: string)

  function StoredSignals(machine: string, signals: seq<Signal>): seq<StoredSignal> {
    if signals == [] then []
    else
      var s := signals[|signals| - 1];
      StoredSignals(machine, signals[..|signals| - 1]) +
      (if Accepted(s) then [StoredSignal(machine, s.scenario)] else [])
  }

  datatype IngestError = BatchTooLarge | MachineNotFound | MachineBlocked

  class SignalService {
    const store: DecisionStore
    const defaultDuration: int
    const parsers: Parsers
    var statuses: map<string, string>
    var entries: Allowlists.Entries
    var signals: seq<StoredSignal>

    constructor (store: DecisionStore, defaultDuration: int, parsers: Parsers)
      ensures this.store == store && this.defaultDuration == defaultDuration && this.parsers == parsers
    {
      this.store, this.defaultDuration, this.parsers := store, defaultDuration, parsers;
      statuses, entries, signals := map[], map[], [];
    }

    function Ctx(machine: string): Context
      reads this`entries
    {
      Context(machine, defaultDuration, parsers, entries)
    }

    /**
     Oversized batches and blocked or unknown machines add nothing; otherwise the nested loops amount to considering
     the decisions of the accepted signals one after another.
     */
    method ProcessSignals(machine: string, batch: seq<Signal>) returns (r: Result<(), IngestError>)
      modifies this`signals, store`rows
      ensures r == if |batch| > 250 then Err(BatchTooLarge)
                   else if machine !in statuses then Err(MachineNotFound)
                   else if statuses[machine] == "blocked" then Err(MachineBlocked)
                   else Ok(())
      ensures r.Err? ==> store.rows == old(store.rows) && signals == old(signals)
      ensures r.Ok? ==> signals == old(signals) + StoredSignals(machine, batch)
      ensures r.Ok? ==> store.rows == IngestedAll(Ctx(machine), old(store.rows), Offers(batch))
    {
      if |batch| > MAX_SIGNAL_BATCH {
        return Err(BatchTooLarge);
      }
      if machine !in statuses {
        return Err(MachineNotFound);
      }
      if statuses[machine] == "blocked" {
        return Err(MachineBlocked);
      }
      ghost var c, start := Ctx(machine), store.rows;
      for i := 0 to |batch|
        invariant Ctx(machine) == c
        invariant signals == old(signals) + StoredSignals(machine, batch[..i])
        invariant store.rows == IngestedAll(c, start, Offers(batch[..i]))
      {
        BatchSnoc(c, start, machine, batch, i);
        var sig := batch[i];
        if |sig.scenario| > MAX_SCENARIO_BYTES {
          continue;
        }
        if sig.labelsBytes > MAX_LABELS_BYTES {
          continue;
        }
        if !sig.storable {
          continue;
        }
        signals := signals + [StoredSignal(machine, sig.scenario)];
        ghost var before := store.rows;
        for j := 0 to |sig.attempts|
          invariant Ctx(machine) == c && signals == old(signals) + StoredSignals(machine, batch[..i + 1])
          invariant store.rows == Ingested(c, before, OffersOf(sig), j)
        {
          ProcessDecision(machine, sig.scenario, sig.attempts[j]);
        }
      }
      assert batch[..|batch|] == batch;
      r := Ok(());
    }

    /** The body of the inner loop. */
    method ProcessDecision(machine: string, scenario: string, a: Attempt)
      modifies store`rows
      ensures store.rows == Considered(Ctx(machine), old(store.rows), Offer(scenario, a))
    {
      var dec := a.dec;
      if dec.scope == "" || dec.value == "" {
        return;
      }
      if !DecisionFields(parsers, dec.dtype, dec.scope, dec.value) {
        return;
      }
      if Allowlists.IsAllowlisted(entries, dec.scope, dec.value, a.listAt) {
        return;
      }
      var existing := store.GetActiveDecision(dec.scope, dec.value, a.checkAt);
      if existing.Some? {
        return;
      }
      var duration := defaultDuration;
      if dec.duration.Some? {
        duration := dec.duration.value;
      }
      var d := Draft(LOCAL, dec.dtype, dec.scope, dec.value, duration, Some(scenario), Some(machine), false,
                     a.wall + duration);
      var _ := store.CreateDecision(a.uuid, d, a.insertAt);
    }
  }

  lemma {:induction false} IngestedConcat(c: Context, rows: Table, first: seq<Offer>, second: seq<Offer>, n: nat)
    requires n <= |second|
    ensures Ingested(c, rows, first + second, |first| + n) == Ingested(c, Ingested(c, rows, first, |first|), second, n)
  {
    if n == 0 {
      IngestedPrefix(c, rows, first, second, |first|);
    } else {
      IngestedConcat(c, rows, first, second, n - 1);
    }
  }

  lemma {:induction false} IngestedPrefix(c: Context, rows: Table, first: seq<Offer>, second: seq<Offer>, n: nat)
    requires n <= |first|
    ensures Ingested(c, rows, first + second, n) == Ingested(c, rows, first, n)
  {
    if n > 0 {
      IngestedPrefix(c, rows, first, second, n - 1);
    }
  }

  /** One more signal of a batch. */
  lemma BatchSnoc(c: Context, rows: Table, machine: string, batch: seq<Signal>, i: nat)
    requires i < |batch|
    ensures var before, s := IngestedAll(c, rows, Offers(batch[..i])), batch[i];
            && (IngestedAll(c, rows, Offers(batch[..i + 1])) ==
                if Accepted(s) then IngestedAll(c, before, OffersOf(s)) else before)
            && (StoredSignals(machine, batch[..i + 1]) ==
                StoredSignals(machine, batch[..i]) + if Accepted(s) then [StoredSignal(machine, s.scenario)] else [])
  {
    assert batch[..i + 1][..i] == batch[..i];
    var offers := Offers(batch[..i]);
    if Accepted(batch[i]) {
      IngestedConcat(c, rows, offers, OffersOf(batch[i]), |OffersOf(batch[i])|);
    } else {
      assert offers + [] == offers;
    }
  }

  // ------------------------------------------------ which decisions are stored

  /** The random uuids clash neither with each other nor with a row already there. */
  ghost predicate FreshUuids(rows: Table, offers: seq<Offer>) {
    && (forall i :: 0 <= i < |offers| ==> offers[i].attempt.uuid !in rows)
    && (forall i, j :: 0 <= i < j < |offers| ==> offers[i].attempt.uuid != offers[j].attempt.uuid)
  }

  ghost predicate ClockRuns(offers: seq<Offer>) {
    && (forall i :: 0 <= i < |offers| ==> offers[i].attempt.checkAt <= offers[i].attempt.insertAt)
    && (forall i, j :: 0 <= i < j < |offers| ==> offers[i].attempt.insertAt <= offers[j].attempt.checkAt)
  }

  predicate Stored(c: Context, rows: Table, offers: seq<Offer>, i: nat)
    requires i < |offers|
  {
    Eligible(c, offers[i]) && !Blocked(Ingested(c, rows, offers, i), offers[i])
  }

  function RowOf(c: Context, o: Offer): Row {
    Inserted(DraftOf(c, o), o.attempt.insertAt)
  }

  /** Nothing but the stored decisions is added, each as the row built from it, and every other row is kept. */
  ghost predicate AddsStored(c: Context, rows: Table, offers: seq<Offer>, n: nat, after: Table)
    requires n <= |offers|
  {
    && (forall u :: u in rows ==> u in after && after[u] == rows[u])
    && (forall i :: 0 <= i < n && Stored(c, rows, offers, i) ==>
                      offers[i].attempt.uuid in after && after[offers[i].attempt.uuid] == RowOf(c, offers[i]))
    && (forall u :: u in after && u !in rows ==>
                      exists i :: 0 <= i < n && Stored(c, rows, offers, i) && u == offers[i].attempt.uuid)
  }

  lemma {:induction false} IngestedRows(c: Context, rows: Table, offers: seq<Offer>, n: nat)
    requires n <= |offers| && FreshUuids(rows, offers)
    ensures AddsStored(c, rows, offers, n, Ingested(c, rows, offers, n))
  {
    if n > 0 {
      var before, after, o := Ingested(c, rows, offers, n - 1), Ingested(c, rows, offers, n), offers[n - 1];
      IngestedRows(c, rows, offers, n - 1);
      assert o.attempt.uuid !in before;
      if Stored(c, rows, offers, n - 1) {
        assert after == before[o.attempt.uuid := RowOf(c, o)];
      } else {
        assert after == before;
      }
    }
  }

  /**
   What the source lets through: a ban or a captcha on an address, a range or a country that its own parser accepts, and
   that no unexpired allowlist entry names.
   */
  ghost predicate Lawful(c: Context, o: Offer) {
    var d := o.attempt.dec;
    && (d.dtype == "ban" || d.dtype == "captcha")
    && d.value != ""
    && (d.scope == "Ip" || d.scope == "Range" || d.scope == "Country")
    && (d.scope == "Ip" ==> c.parsers.isIP(d.value))
    && (d.scope == "Range" ==> c.parsers.isCIDR(d.value))
    && (d.scope == "Country" ==> |d.value| == 2 && c.parsers.toUpper(d.value) == d.value)
    && (forall id :: id in c.entries && Allowlists.Target(d.scope, d.value) in c.entries[id] ==>
          var e := c.entries[id][Allowlists.Target(d.scope, d.value)];
          e.expiresAt.Some? && e.expiresAt.value <= o.attempt.listAt)
  }

  /** No undeleted, unexpired row of whatever origin decides on the target at the check. */
  ghost predicate TargetFree(rows: Table, o: Offer) {
    forall u :: u in rows && rows[u].scope == o.attempt.dec.scope && rows[u].value == o.attempt.dec.value ==>
                  rows[u].isDeleted || rows[u].expiresAt <= o.attempt.checkAt
  }

  /** The row a decision gets, column by column. */
  ghost predicate IsRowOf(c: Context, o: Offer, r: Row) {
    var d := o.attempt.dec;
    && r.origin == "local-signal" && r.dtype == d.dtype && r.scope == d.scope && r.value == d.value
    && r.scenario == Some(o.scenario) && r.sourceMachine == Some(c.machine) && !r.simulated
    && (d.duration.Some? ==>
          r.durationSecs == TruncDiv(d.duration.value, SECOND) && r.expiresAt == o.attempt.wall + d.duration.value)
    && (d.duration.None? ==>
          r.durationSecs == TruncDiv(c.defaultDuration, SECOND) && r.expiresAt == o.attempt.wall + c.defaultDuration)
    && !r.isDeleted && r.deletedAt == None && r.createdAt == r.updatedAt == o.attempt.insertAt
  }

  lemma EligibleIsLawful(c: Context, o: Offer)
    ensures Eligible(c, o) <==> Lawful(c, o)
  {
  }

  lemma BlockedIsTaken(rows: Table, o: Offer)
    ensures Blocked(rows, o) <==> !TargetFree(rows, o)
  {
    var active := ActiveOn(rows, o.attempt.dec.scope, o.attempt.dec.value, o.attempt.checkAt);
    if Blocked(rows, o) {
      var u :| u in active;
    } else {
      assert forall u :: u in rows ==> u !in active;
    }
  }

  /** One decision, exactly: a lawful one on a free target adds its row, and any other changes nothing. */
  lemma OneDecisionExactly(c: Context, rows: Table, o: Offer)
    requires o.attempt.uuid !in rows
    ensures var after := Considered(c, rows, o);
            if Lawful(c, o) && TargetFree(rows, o)
            then && after.Keys == rows.Keys + {o.attempt.uuid} && IsRowOf(c, o, after[o.attempt.uuid])
                 && forall u :: u in rows ==> after[u] == rows[u]
            else after == rows
  {
    EligibleIsLawful(c, o);
    BlockedIsTaken(rows, o);
  }

  /** Every row a batch adds comes from a lawful decision, whose target was free when the batch began. */
  lemma AddedRowsAreLawful(c: Context, rows: Table, offers: seq<Offer>, u: Uuid) returns (i: nat)
    requires FreshUuids(rows, offers) && u in Ingested(c, rows, offers, |offers|) && u !in rows
    ensures i < |offers| && offers[i].attempt.uuid == u
    ensures Lawful(c, offers[i]) && TargetFree(rows, offers[i])
    ensures IsRowOf(c, offers[i], Ingested(c, rows, offers, |offers|)[u])
  {
    i := StoredSource(c, rows, offers, u);
    StoredIff(c, rows, offers, i);
    EligibleIsLawful(c, offers[i]);
    BlockedIsTaken(rows, offers[i]);
    BuiltIsRowOf(c, offers[i]);
  }

  lemma BuiltIsRowOf(c: Context, o: Offer)
    ensures IsRowOf(c, o, RowOf(c, o))
  {
  }

  /** The stored decision an added row comes from. */
  lemma StoredSource(c: Context, rows: Table, offers: seq<Offer>, u: Uuid) returns (i: nat)
    requires FreshUuids(rows, offers) && u in Ingested(c, rows, offers, |offers|) && u !in rows
    ensures i < |offers| && offers[i].attempt.uuid == u && Stored(c, rows, offers, i)
    ensures Ingested(c, rows, offers, |offers|)[u] == RowOf(c, offers[i])
  {
    IngestedRows(c, rows, offers, |offers|);
    i :| 0 <= i < |offers| && Stored(c, rows, offers, i) && u == offers[i].attempt.uuid;
  }

  // ------------------------------------------------ which decisions are offered

  lemma {:induction false} StoredConcat(machine: string, first: seq<Signal>, second: seq<Signal>)
    ensures StoredSignals(machine, first + second) == StoredSignals(machine, first) + StoredSignals(machine, second)
  {
    if second == [] {
      assert first + second == first;
    } else {
      var n := |second| - 1;
      assert (first + second)[..|first| + n] == first + second[..n];
      StoredConcat(machine, first, second[..n]);
    }
  }

  lemma {:induction false} OfferedConcat(first: seq<Signal>, second: seq<Signal>)
    ensures Offers(first + second) == Offers(first) + Offers(second)
  {
    if second == [] {
      assert first + second == first;
    } else {
      var n := |second| - 1;
      assert (first + second)[..|first| + n] == first + second[..n];
      OfferedConcat(first, second[..n]);
    }
  }

  /** A batch after a batch offers its decisions, and stores its signals, after the other's. */
  lemma OffersConcat(first: seq<Signal>, second: seq<Signal>, machine: string)
    ensures Offers(first + second) == Offers(first) + Offers(second)
    ensures StoredSignals(machine, first + second) == StoredSignals(machine, first) + StoredSignals(machine, second)
  {
    OfferedConcat(first, second);
    StoredConcat(machine, first, second);
  }

  /**
   One signal is stored, and offers its decisions in order, unless its scenario is longer than 1024 bytes, its labels
   are longer than 4096, or it cannot be stored.
   */
  lemma OffersOfOne(s: Signal, machine: string)
    ensures var taken := |s.scenario| <= 1024 && s.labelsBytes <= 4096 && s.storable;
            && StoredSignals(machine, [s]) == (if taken then [StoredSignal(machine, s.scenario)] else [])
            && |Offers([s])| == (if taken then |s.attempts| else 0)
            && forall j :: 0 <= j < |Offers([s])| ==>
                 Offers([s])[j].scenario == s.scenario && Offers([s])[j].attempt == s.attempts[j]
  {
    assert [s][..0] == [];
    assert Offers([]) == [];
  }

  /**
   Deduplication, exactly. A decision is stored if and only if it is eligible, no row that was there before the batch is
   still active on its target, and every earlier decision of the batch stored for the target has expired by then.
   */
  lemma StoredIff(c: Context, rows: Table, offers: seq<Offer>, i: nat)
    requires i < |offers| && FreshUuids(rows, offers)
    ensures Stored(c, rows, offers, i) <==>
              && Eligible(c, offers[i])
              && !Blocked(rows, offers[i])
              && (forall j :: 0 <= j < i && Stored(c, rows, offers, j) && offers[j].Target() == offers[i].Target() ==>
                                DraftOf(c, offers[j]).expiresAt <= offers[i].attempt.checkAt)
  {
    IngestedRows(c, rows, offers, i);
    var o, before := offers[i], Ingested(c, rows, offers, i);
    var active := ActiveOn(before, o.attempt.dec.scope, o.attempt.dec.value, o.attempt.checkAt);
    if Blocked(rows, o) {
      var u :| u in ActiveOn(rows, o.attempt.dec.scope, o.attempt.dec.value, o.attempt.checkAt);
      assert u in active;
    }
    forall j | 0 <= j < i && Stored(c, rows, offers, j) && offers[j].Target() == o.Target() &&
               DraftOf(c, offers[j]).expiresAt > o.attempt.checkAt
      ensures active != {}
    {
      assert before[offers[j].attempt.uuid] == RowOf(c, offers[j]);
      assert offers[j].attempt.uuid in active;
    }
    if active != {} {
      var u :| u in active;
      if u in rows {
        assert u in ActiveOn(rows, o.attempt.dec.scope, o.attempt.dec.value, o.attempt.checkAt);
      } else {
        var j :| 0 <= j < i && Stored(c, rows, offers, j) && u == offers[j].attempt.uuid;
        assert before[u] == RowOf(c, offers[j]);
      }
    }
  }

  /**
   Nothing changes under a batch's feet: the clock runs forward, the allowlists and the active rows at its start stay so
   until its end, and what it stores outlives it (so durations are positive).
   */
  ghost predicate Steady(c: Context, rows: Table, offers: seq<Offer>) {
    && ClockRuns(offers)
    && (forall i :: 0 <= i < |offers| && Eligible(c, offers[i]) ==>
                      DraftOf(c, offers[i]).expiresAt > offers[|offers| - 1].attempt.checkAt)
    && (forall i, u :: 0 <= i < |offers| && u in rows && Live(rows[u], offers[0].attempt.checkAt) ==>
                         Live(rows[u], offers[i].attempt.checkAt))
    && (forall i, t: (string, string) :: 0 <= i < |offers| ==>
          Allowlists.IsAllowlisted(c.entries, t.0, t.1, offers[i].attempt.listAt)
          == Allowlists.IsAllowlisted(c.entries, t.0, t.1, offers[0].attempt.listAt))
  }

  /** The first eligible decision on a target that had no active row when the batch began. */
  ghost predicate Wins(c: Context, rows: Table, offers: seq<Offer>, i: nat)
    requires i < |offers|
  {
    && Eligible(c, offers[i])
    && ActiveOn(rows, offers[i].Target().0, offers[i].Target().1, offers[0].attempt.checkAt) == {}
    && forall j :: 0 <= j < i && Eligible(c, offers[j]) ==> offers[j].Target() != offers[i].Target()
  }

  /** No other decision wins the same target. */
  ghost predicate OnlyWinner(c: Context, rows: Table, offers: seq<Offer>, i: nat)
    requires i < |offers|
  {
    forall k :: 0 <= k < |offers| && k != i && Wins(c, rows, offers, k) ==> offers[k].Target() != offers[i].Target()
  }

  lemma BlockedThroughout(c: Context, rows: Table, offers: seq<Offer>, i: nat)
    requires Steady(c, rows, offers) && i < |offers|
    ensures Blocked(rows, offers[i]) <==>
            ActiveOn(rows, offers[i].Target().0, offers[i].Target().1, offers[0].attempt.checkAt) != {}
  {
    var o := offers[i];
    var first := ActiveOn(rows, o.Target().0, o.Target().1, offers[0].attempt.checkAt);
    var now := ActiveOn(rows, o.Target().0, o.Target().1, o.attempt.checkAt);
    assert offers[0].attempt.checkAt <= o.attempt.checkAt;
    assert forall u :: u in first <==> u in now;
  }

  lemma {:induction false} StoredIffWins(c: Context, rows: Table, offers: seq<Offer>, i: nat)
    requires Steady(c, rows, offers) && FreshUuids(rows, offers) && i < |offers|
    ensures Stored(c, rows, offers, i) <==> Wins(c, rows, offers, i)
  {
    StoredIff(c, rows, offers, i);
    BlockedThroughout(c, rows, offers, i);
    var o := offers[i];
    assert o.attempt.checkAt <= offers[|offers| - 1].attempt.checkAt;
    if j :| 0 <= j < i && Eligible(c, offers[j]) && offers[j].Target() == o.Target() && !Blocked(rows, o) {
      // the target's first eligible decision was stored, and its row is still active
      var k := FirstOnTarget(c, offers, j);
      assert Wins(c, rows, offers, k);
      StoredIffWins(c, rows, offers, k);
      assert DraftOf(c, offers[k]).expiresAt > o.attempt.checkAt;
    } else if Eligible(c, o) && !Blocked(rows, o) {
      assert Wins(c, rows, offers, i);
    }
  }

  lemma {:induction false} FirstOnTarget(c: Context, offers: seq<Offer>, j: nat) returns (k: nat)
    requires j < |offers| && Eligible(c, offers[j])
    ensures k <= j && Eligible(c, offers[k]) && offers[k].Target() == offers[j].Target()
    ensures forall i :: 0 <= i < k && Eligible(c, offers[i]) ==> offers[i].Target() != offers[j].Target()
  {
    if i :| 0 <= i < j && Eligible(c, offers[i]) && offers[i].Target() == offers[j].Target() {
      k := FirstOnTarget(c, offers, i);
    } else {
      k := j;
    }
  }

  /**
   Batch ingestion is first-wins deduplication: the rows added are exactly those built from the winning decisions, and
   every target with an eligible decision and no active row gets exactly one.
   */
  lemma BatchIsFirstWins(c: Context, rows: Table, offers: seq<Offer>)
    requires Steady(c, rows, offers) && FreshUuids(rows, offers)
    ensures var after := Ingested(c, rows, offers, |offers|);
            && (forall u :: u in rows ==> u in after && after[u] == rows[u])
            && (forall u :: u in after && u !in rows <==>
                  exists i :: 0 <= i < |offers| && Wins(c, rows, offers, i) && u == offers[i].attempt.uuid)
            && (forall i :: 0 <= i < |offers| && Wins(c, rows, offers, i) ==>
                  offers[i].attempt.uuid in after && after[offers[i].attempt.uuid] == RowOf(c, offers[i]))
    ensures forall j :: 0 <= j < |offers| && Eligible(c, offers[j]) &&
                        ActiveOn(rows, offers[j].Target().0, offers[j].Target().1, offers[0].attempt.checkAt) == {} ==>
              exists i :: 0 <= i <= j && Wins(c, rows, offers, i) && offers[i].Target() == offers[j].Target() &&
                          OnlyWinner(c, rows, offers, i)
  {
    IngestedRows(c, rows, offers, |offers|);
    forall i | 0 <= i < |offers| ensures Stored(c, rows, offers, i) <==> Wins(c, rows, offers, i) {
      StoredIffWins(c, rows, offers, i);
    }
    forall j | 0 <= j < |offers| && Eligible(c, offers[j]) &&
               ActiveOn(rows, offers[j].Target().0, offers[j].Target().1, offers[0].attempt.checkAt) == {}
      ensures exists i :: 0 <= i <= j && Wins(c, rows, offers, i) && offers[i].Target() == offers[j].Target() &&
                          OnlyWinner(c, rows, offers, i)
    {
      var i := FirstOnTarget(c, offers, j);
      assert Wins(c, rows, offers, i);
    }
  }

  /** A duration that is not positive defeats the deduplication: one batch stores two rows for one target. */
  lemma ZeroDurationStoresTwice(c: Context, a: Attempt, b: Attempt, scenario: string)
    requires a.dec.scope == b.dec.scope && a.dec.value == b.dec.value && a.uuid != b.uuid && a.wall <= b.checkAt
    requires a.dec.duration == Some(0) && Eligible(c, Offer(scenario, a)) && Eligible(c, Offer(scenario, b))
    ensures var offers := [Offer(scenario, a), Offer(scenario, b)];
            Ingested(c, map[], offers, 2).Keys == {a.uuid, b.uuid}
  {
    var offers := [Offer(scenario, a), Offer(scenario, b)];
    assert Ingested(c, map[], offers, 0) == map[];
    assert Ingested(c, map[], offers, 1) == map[a.uuid := RowOf(c, offers[0])];
    assert Ingested(c, map[], offers, 2) == Considered(c, Ingested(c, map[], offers, 1), offers[1]);
  }
}
