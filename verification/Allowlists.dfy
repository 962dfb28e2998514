/** Allowlists and their entries, and loading file-managed ones. */
module Allowlists {
  import opened Base

  datatype Allowlist = Allowlist(
    id: nat, title: string, description: string, managed: bool, createdAt: Time, updatedAt: Time)

  datatype Target = Target(scope: string, value: string)

  datatype Entry = Entry(comment: string, expiresAt: Option<Time>, createdAt: Time)

  type Lists = map<string, Allowlist>

  /** The entries table: its key (allowlist_id, scope, value) read one list at a time. */
  type Entries = map<nat, map<Target, Entry>>

  function EntriesOf(entries: Entries, id: nat): map<Target, Entry> {
    if id in entries then entries[id] else map[]
  }

  /** Exact match on scope and value, in any list; an entry without expiry never lapses. */
  predicate IsAllowlisted(entries: Entries, scope: string, value: string, now: Time) {
    exists id :: id in entries && Target(scope, value) in entries[id] &&
                 Unexpired(entries[id][Target(scope, value)], now)
  }

  predicate Unexpired(e: Entry, now: Time) {
    e.expiresAt.None? || e.expiresAt.value > now
  }

  // ------------------------------------------------------------ the file

  datatype EntryDef = EntryDef(scope: string, value: string, comment: string)

  datatype AllowlistDef = AllowlistDef(name: string, title: string, description: string, entries: seq<EntryDef>)

  predicate Usable(e: EntryDef) {
    e.scope != "" && e.value != ""
  }

  function UsableEntries(entries: seq<EntryDef>): seq<EntryDef> {
    if entries == [] then []
    else
      var rest := UsableEntries(entries[..|entries| - 1]);
      var e := entries[|entries| - 1];
      if Usable(e) then rest + [e] else rest
  }

  /** What the environment does to one definition's statements. */
  datatype Fault = NoFault | UpsertFails | SyncFailsAt(statement: nat)

  datatype LoadError = MissingName(index: nat) | UpsertFailed(index: nat) | SyncFailed(index: nat)

  // ------------------------------------------------- what a reader can see

  /** An entry up to its timestamp. */
  datatype Listed = Listed(comment: string, expiresAt: Option<Time>)

  /** An allowlist up to ids and timestamps. */
  datatype ListView = ListView(title: string, description: string, managed: bool, contents: map<Target, Listed>)

  function Contents(es: map<Target, Entry>): map<Target, Listed> {
    map t | t in es :: Listed(es[t].comment, es[t].expiresAt)
  }

  function ListViewOf(a: Allowlist, entries: Entries): ListView {
    ListView(a.title, a.description, a.managed, Contents(EntriesOf(entries, a.id)))
  }

  /** The contents a definition asks for: the usable entries, the last comment winning. */
  function Requested(entries: seq<EntryDef>): map<Target, Listed> {
    map t | t in Targets(entries) :: Listed(LastComment(entries, t), None)
  }

  function Targets(entries: seq<EntryDef>): set<Target> {
    set e | e in entries && Usable(e) :: Target(e.scope, e.value)
  }

  predicate Names(e: EntryDef, t: Target) {
    Usable(e) && Target(e.scope, e.value) == t
  }

  function LastComment(entries: seq<EntryDef>, t: Target): (c: string)
    requires t in Targets(entries)
    ensures exists i :: 0 <= i < |entries| && Names(entries[i], t) && c == entries[i].comment &&
                        forall j :: i < j < |entries| ==> !Names(entries[j], t)
  {
    var n := |entries| - 1;
    if Names(entries[n], t) then entries[n].comment
    else
      assert forall e :: e in entries ==> e == entries[n] || e in entries[..n];
      LastComment(entries[..n], t)
  }

  function Defined(def: AllowlistDef): ListView {
    ListView(def.title, def.description, true, Requested(def.entries))
  }

  /** The map update a load amounts to. */
  function Loaded(view: map<string, ListView>, defs: seq<AllowlistDef>): map<string, ListView> {
    if defs == [] then view
    else
      var last := defs[|defs| - 1];
      Loaded(view, defs[..|defs| - 1])[last.name := Defined(last)]
  }

  /** The index of the last definition with this name, if any. */
  function LastNamed(defs: seq<AllowlistDef>, n: string): (last: Option<nat>)
    ensures last.None? ==> forall i :: 0 <= i < |defs| ==> defs[i].name != n
    ensures last.Some? ==> last.value < |defs| && defs[last.value].name == n &&
                           forall j :: last.value < j < |defs| ==> defs[j].name != n
  {
    if defs == [] then None
    else if defs[|defs| - 1].name == n then Some(|defs| - 1)
    else LastNamed(defs[..|defs| - 1], n)
  }

  /** After a load each named list is what its last definition says, and the others are untouched. */
  lemma {:induction false} LoadedIsLastDefinition(view: map<string, ListView>, defs: seq<AllowlistDef>, n: string)
    ensures var after := Loaded(view, defs);
            match LastNamed(defs, n)
            case Some(i) => n in after && after[n] == Defined(defs[i])
            case None => (n in after <==> n in view) && (n in view ==> after[n] == view[n])
  {
    if defs != [] {
      var m := |defs| - 1;
      LoadedIsLastDefinition(view, defs[..m], n);
      if defs[m].name != n {
        assert LastNamed(defs, n) == LastNamed(defs[..m], n);
      }
    }
  }

  /**
   What a definition asks for, field by field: its labels, managed, and exactly its entries with a scope and a value,
   each without expiry and with the comment of its last mention.
   */
  lemma DefinedExactly(def: AllowlistDef)
    ensures var v := Defined(def);
            && v.title == def.title && v.description == def.description && v.managed
            && (forall t :: t in v.contents <==>
                  t.scope != "" && t.value != "" && exists i :: 0 <= i < |def.entries| && Mentions(def.entries[i], t))
            && (forall t :: t in v.contents ==>
                  v.contents[t].expiresAt == None &&
                  exists i :: 0 <= i < |def.entries| && Mentions(def.entries[i], t)
                              && v.contents[t].comment == def.entries[i].comment
                              && forall j :: i < j < |def.entries| ==> !Mentions(def.entries[j], t))
  {
    var v := Defined(def);
    forall t ensures t in v.contents <==>
                  t.scope != "" && t.value != "" && exists i :: 0 <= i < |def.entries| && Mentions(def.entries[i], t)
    {
      if t in v.contents {
        var e :| e in def.entries && Usable(e) && Target(e.scope, e.value) == t;
        var i :| 0 <= i < |def.entries| && def.entries[i] == e;
        assert Mentions(def.entries[i], t);
      } else if t.scope != "" && t.value != "" {
        forall i | 0 <= i < |def.entries| ensures !Mentions(def.entries[i], t) {
          assert def.entries[i] in def.entries;
        }
      }
    }
    forall t | t in v.contents
      ensures exists i :: 0 <= i < |def.entries| && Mentions(def.entries[i], t)
                          && v.contents[t].comment == def.entries[i].comment
                          && forall j :: i < j < |def.entries| ==> !Mentions(def.entries[j], t)
    {
      MentionedIsNamed(def.entries, t);
    }
  }

  /** The entry is about this scope and value. */
  predicate Mentions(e: EntryDef, t: Target) {
    e.scope == t.scope && e.value == t.value
  }

  lemma MentionedIsNamed(entries: seq<EntryDef>, t: Target)
    requires t.scope != "" && t.value != ""
    ensures forall i :: 0 <= i < |entries| ==> (Names(entries[i], t) <==> Mentions(entries[i], t))
  {
  }

  /** Loading twice is loading once. */
  lemma LoadIdempotent(view: map<string, ListView>, defs: seq<AllowlistDef>)
    ensures Loaded(Loaded(view, defs), defs) == Loaded(view, defs)
  {
    var once, twice := Loaded(view, defs), Loaded(Loaded(view, defs), defs);
    forall n ensures (n in twice <==> n in once) && (n in once ==> twice[n] == once[n]) {
      LoadedIsLastDefinition(view, defs, n);
      LoadedIsLastDefinition(once, defs, n);
    }
  }

  // ------------------------------------------- statements on the two tables

  /** The two tables, and the sequence that numbers the lists. */
  datatype Db = Db(lists: Lists, entries: Entries, nextId: nat)

  ghost predicate DbOk(db: Db) {
    && (forall n :: n in db.lists ==> db.lists[n].id < db.nextId)
    && (forall m, n :: m in db.lists && n in db.lists && db.lists[m].id == db.lists[n].id ==> m == n)
    && (forall id :: id in db.entries ==> id < db.nextId)
  }

  function View(db: Db): map<string, ListView> {
    map n | n in db.lists :: ListViewOf(db.lists[n], db.entries)
  }

  /** INSERT a managed list, or on a conflict set its labels and mark it managed. */
  function Upserted(db: Db, name: string, title: string, description: string, now: Time): (r: Db)
    ensures name in r.lists
  {
    if name in db.lists
    then db.(lists := db.lists[name := db.lists[name].(title := title, description := description, managed := true,
                                                       updatedAt := now)])
    else
      var list := Allowlist(db.nextId, title, description, true, now, now);
      db.(lists := db.lists[name := list], nextId := db.nextId + 1)
  }

  /** INSERT, or on a conflict an update of the comment alone. */
  function Put(es: map<Target, Entry>, e: EntryDef, now: Time): map<Target, Entry> {
    var t := Target(e.scope, e.value);
    es[t := if t in es then es[t].(comment := e.comment) else Entry(e.comment, None, now)]
  }

  /** What a list contains after it is cleared and these entries are inserted in order. */
  function Inserted(wanted: seq<EntryDef>, now: Time): map<Target, Entry> {
    if wanted == [] then map[] else Put(Inserted(wanted[..|wanted| - 1], now), wanted[|wanted| - 1], now)
  }

  function DefinedDb(db: Db, def: AllowlistDef, now: Time): Db {
    var u := Upserted(db, def.name, def.title, def.description, now);
    u.(entries := u.entries[u.lists[def.name].id := Inserted(UsableEntries(def.entries), now)])
  }

  function LoadedDb(db: Db, defs: seq<AllowlistDef>, now: Time): Db {
    if defs == [] then db else DefinedDb(LoadedDb(db, defs[..|defs| - 1], now), defs[|defs| - 1], now)
  }

  /** What is left behind by a definition that fails. */
  function FailedDb(db: Db, def: AllowlistDef, e: LoadError, now: Time): Db {
    if e.SyncFailed? then Upserted(db, def.name, def.title, def.description, now) else db
  }

  /** Whether one definition can be loaded. */
  function Verdict(def: AllowlistDef, fault: Fault, i: nat): Result<(), LoadError> {
    if def.name == "" then Err(MissingName(i))
    else
      match fault
      case NoFault => Ok(())
      case UpsertFails => Err(UpsertFailed(i))
      case SyncFailsAt(k) => if k <= |UsableEntries(def.entries)| + 1 then Err(SyncFailed(i)) else Ok(())
  }

  /** The first n definitions can all be loaded. */
  ghost predicate Loadable(defs: seq<AllowlistDef>, faults: nat -> Fault, n: nat)
    requires n <= |defs|
  {
    forall j :: 0 <= j < n ==> Verdict(defs[j], faults(j), j).Ok?
  }

  /** The first definition that cannot be loaded decides the outcome. */
  function LoadVerdict(defs: seq<AllowlistDef>, faults: nat -> Fault): (r: Result<(), LoadError>)
    ensures r.Ok? <==> Loadable(defs, faults, |defs|)
    ensures r.Err? ==>
              var i := r.error.index; i < |defs| && r == Verdict(defs[i], faults(i), i) && Loadable(defs, faults, i)
  {
    if defs == [] then Ok(())
    else
      var before := LoadVerdict(defs[..|defs| - 1], faults);
      if before.Err? then before else Verdict(defs[|defs| - 1], faults(|defs| - 1), |defs| - 1)
  }

  /** A file loads exactly if every list has a name and no statement of it fails. */
  lemma LoadsIff(defs: seq<AllowlistDef>, faults: nat -> Fault)
    ensures LoadVerdict(defs, faults).Ok? <==>
              forall i :: 0 <= i < |defs| ==>
                && defs[i].name != "" && !faults(i).UpsertFails?
                && (faults(i).SyncFailsAt? ==> faults(i).statement > |UsableEntries(defs[i].entries)| + 1)
  {
  }

  /** What the error of a failed load says: the earlier lists load, this one has no name or its statements failed. */
  lemma LoadErrorMeans(defs: seq<AllowlistDef>, faults: nat -> Fault)
    requires LoadVerdict(defs, faults).Err?
    ensures var e := LoadVerdict(defs, faults).error;
            var i := e.index;
            && i < |defs| && LoadVerdict(defs[..i], faults).Ok?
            && (e.MissingName? <==> defs[i].name == "")
            && (e.UpsertFailed? <==> defs[i].name != "" && faults(i).UpsertFails?)
            && (e.SyncFailed? ==> faults(i).SyncFailsAt?)
  {
    var i := LoadVerdict(defs, faults).error.index;
    assert Loadable(defs[..i], faults, i);
  }

  /** How many statements a list takes: as many inserts as it has entries with a scope and a value. */
  lemma {:induction false} UsableCount(entries: seq<EntryDef>)
    ensures |UsableEntries(entries)| == |set i | 0 <= i < |entries| && entries[i].scope != "" && entries[i].value != ""|
  {
    if entries != [] {
      var n := |entries| - 1;
      UsableCount(entries[..n]);
      var before := set i | 0 <= i < n && entries[..n][i].scope != "" && entries[..n][i].value != "";
      var all := set i | 0 <= i < |entries| && entries[i].scope != "" && entries[i].value != "";
      if Usable(entries[n]) {
        assert all == before + {n} && n !in before;
      } else {
        assert all == before;
      }
    }
  }

  // ------------------------------------------- what they mean to a reader

  lemma LoadedStep(db: Db, defs: seq<AllowlistDef>, i: nat, now: Time)
    requires i < |defs|
    ensures LoadedDb(db, defs[..i + 1], now) == DefinedDb(LoadedDb(db, defs[..i], now), defs[i], now)
  {
    assert defs[..i + 1][..i] == defs[..i];
  }

  lemma RequestedStep(entries: seq<EntryDef>, i: nat)
    requires i < |entries| && Usable(entries[i])
    ensures Requested(entries[..i + 1]) ==
            Requested(entries[..i])[Target(entries[i].scope, entries[i].value) := Listed(entries[i].comment, None)]
  {
    assert entries[..i + 1][..i] == entries[..i];
    assert forall e :: e in entries[..i + 1] <==> e == entries[i] || e in entries[..i];
  }

  /** Inserting in order, a conflict overwriting the comment, yields the last comment of each target. */
  lemma {:induction false} InsertedContents(wanted: seq<EntryDef>, now: Time)
    requires forall e :: e in wanted ==> Usable(e)
    ensures Contents(Inserted(wanted, now)) == Requested(wanted)
  {
    if wanted != [] {
      var n := |wanted| - 1;
      InsertedContents(wanted[..n], now);
      RequestedStep(wanted, n);
      assert wanted[..n + 1] == wanted;
      var before := Inserted(wanted[..n], now);
      forall t | t in before ensures before[t].expiresAt == None {
        assert Contents(before)[t] == Requested(wanted[..n])[t];
      }
      PutContents(before, wanted[n], now);
    }
  }

  /** Every entry is of this load and never lapses. */
  lemma {:induction false} InsertedFresh(wanted: seq<EntryDef>, now: Time)
    ensures forall t :: t in Inserted(wanted, now) ==>
                          Inserted(wanted, now)[t].expiresAt == None && Inserted(wanted, now)[t].createdAt == now
  {
    if wanted != [] {
      var before, last := Inserted(wanted[..|wanted| - 1], now), wanted[|wanted| - 1];
      InsertedFresh(wanted[..|wanted| - 1], now);
      forall t | t in Put(before, last, now)
        ensures Put(before, last, now)[t].expiresAt == None && Put(before, last, now)[t].createdAt == now
      {
        assert t == Target(last.scope, last.value) || t in before;
      }
    }
  }

  lemma PutContents(es: map<Target, Entry>, e: EntryDef, now: Time)
    requires forall t :: t in es ==> es[t].expiresAt == None
    ensures Contents(Put(es, e, now)) == Contents(es)[Target(e.scope, e.value) := Listed(e.comment, None)]
  {
  }

  /** Dropping the unusable entries first asks for the same contents. */
  lemma {:induction false} UsableEntriesSame(entries: seq<EntryDef>)
    ensures forall e :: e in UsableEntries(entries) <==> e in entries && Usable(e)
    ensures Requested(UsableEntries(entries)) == Requested(entries)
  {
    if entries != [] {
      var n := |entries| - 1;
      UsableEntriesSame(entries[..n]);
      assert forall e :: e in entries <==> e == entries[n] || e in entries[..n];
      var kept := UsableEntries(entries[..n]);
      assert (kept + [entries[n]])[..|kept|] == kept;
      assert Targets(UsableEntries(entries)) == Targets(entries);
      forall t | t in Targets(entries)
        ensures LastComment(UsableEntries(entries), t) == LastComment(entries, t)
      {
        if !Names(entries[n], t) {
          assert t in Targets(entries[..n]);
          assert Requested(kept)[t] == Requested(entries[..n])[t];
        }
      }
    }
  }

  /** A list whose labels are set and whose contents stay. */
  function Renamed(view: map<string, ListView>, def: AllowlistDef): map<string, ListView> {
    view[def.name := ListView(def.title, def.description, true,
                              if def.name in view then view[def.name].contents else map[])]
  }

  lemma UpsertedOk(db: Db, name: string, title: string, description: string, now: Time)
    requires DbOk(db)
    ensures DbOk(Upserted(db, name, title, description, now))
  {
  }

  /** Setting one list changes the view at its name only. */
  lemma ViewSet(db: Db, name: string, a: Allowlist, nextId: nat)
    ensures View(db.(lists := db.lists[name := a], nextId := nextId)) == View(db)[name := ListViewOf(a, db.entries)]
  {
  }

  lemma UpsertedView(db: Db, def: AllowlistDef, now: Time)
    requires DbOk(db)
    ensures View(Upserted(db, def.name, def.title, def.description, now)) == Renamed(View(db), def)
  {
    var u := Upserted(db, def.name, def.title, def.description, now);
    ViewSet(db, def.name, u.lists[def.name], u.nextId);
    if def.name !in db.lists {
      assert EntriesOf(db.entries, db.nextId) == map[];
      assert Contents(map[]) == map[];
    }
  }

  lemma OtherListKept(db: Db, id: nat, es: map<Target, Entry>, n: string)
    requires n in db.lists && db.lists[n].id != id
    ensures ListViewOf(db.lists[n], db.entries[id := es]) == ListViewOf(db.lists[n], db.entries)
  {
  }

  /** Replacing the entries of one list changes the contents at its name only. */
  lemma EntriesSet(db: Db, name: string, es: map<Target, Entry>)
    requires DbOk(db) && name in db.lists
    ensures var r := db.(entries := db.entries[db.lists[name].id := es]);
            DbOk(r) && View(r) == View(db)[name := View(db)[name].(contents := Contents(es))]
  {
    var id := db.lists[name].id;
    var entries := db.entries[id := es];
    var r := db.(entries := entries);
    assert EntriesOf(entries, id) == es;
    forall n | n in db.lists && n != name ensures View(r)[n] == View(db)[n] {
      OtherListKept(db, id, es, n);
    }
    IsUpdate(View(r), View(db), name, View(db)[name].(contents := Contents(es)));
  }

  lemma IsUpdate<V>(after: map<string, V>, before: map<string, V>, n: string, v: V)
    requires after.Keys == before.Keys && n in after && after[n] == v
    requires forall m :: m in after && m != n ==> after[m] == before[m]
    ensures after == before[n := v]
  {
  }

  lemma DefinedView(db: Db, def: AllowlistDef, now: Time)
    requires DbOk(db)
    ensures DbOk(DefinedDb(db, def, now)) && View(DefinedDb(db, def, now)) == View(db)[def.name := Defined(def)]
  {
    var es := Inserted(UsableEntries(def.entries), now);
    assert Contents(es) == Requested(def.entries) by {
      UsableEntriesSame(def.entries);
      InsertedContents(UsableEntries(def.entries), now);
    }
    var u := Upserted(db, def.name, def.title, def.description, now);
    UpsertedOk(db, def.name, def.title, def.description, now);
    UpsertedView(db, def, now);
    EntriesSet(u, def.name, es);
    assert View(u)[def.name].(contents := Contents(es)) == Defined(def);
    Overwrite(View(db), def.name, View(u)[def.name], Defined(def));
  }

  lemma Overwrite<K, V>(m: map<K, V>, k: K, a: V, b: V)
    ensures m[k := a][k := b] == m[k := b]
  {
  }

  /** The statements of a load amount to the map update, up to ids and timestamps. */
  lemma {:induction false} LoadedView(db: Db, defs: seq<AllowlistDef>, now: Time)
    requires DbOk(db)
    ensures DbOk(LoadedDb(db, defs, now)) && View(LoadedDb(db, defs, now)) == Loaded(View(db), defs)
  {
    if defs != [] {
      LoadedView(db, defs[..|defs| - 1], now);
      DefinedView(LoadedDb(db, defs[..|defs| - 1], now), defs[|defs| - 1], now);
    }
  }

  /** What a load that fails at definition i leaves: the ones before it applied, and of it at most its labels. */
  lemma FailedLoad(db: Db, defs: seq<AllowlistDef>, faults: nat -> Fault, i: nat, now: Time)
    requires DbOk(db) && i < |defs| && Verdict(defs[i], faults(i), i).Err?
    requires Loadable(defs, faults, i)
    ensures var e := Verdict(defs[i], faults(i), i).error;
            var left := FailedDb(LoadedDb(db, defs[..i], now), defs[i], e, now);
            && LoadVerdict(defs, faults) == Err(e) && e.index == i && DbOk(left)
            && View(left) == if e.SyncFailed? then Renamed(Loaded(View(db), defs[..i]), defs[i])
                             else Loaded(View(db), defs[..i])
  {
    assert LoadVerdict(defs, faults).Err?;
    LoadedView(db, defs[..i], now);
    UpsertedOk(LoadedDb(db, defs[..i], now), defs[i].name, defs[i].title, defs[i].description, now);
    UpsertedView(LoadedDb(db, defs[..i], now), defs[i], now);
  }

  /** A target is allowlisted exactly when some list a reader can see names it in an unexpired entry. */
  lemma AllowlistedIffListed(db: Db, scope: string, value: string, now: Time)
    requires DbOk(db) && forall id :: id in db.entries ==> exists n :: n in db.lists && db.lists[n].id == id
    ensures IsAllowlisted(db.entries, scope, value, now) <==>
            exists n :: n in View(db) && Target(scope, value) in View(db)[n].contents &&
                        var e := View(db)[n].contents[Target(scope, value)];
                        e.expiresAt.None? || e.expiresAt.value > now
  {
    var t := Target(scope, value);
    if IsAllowlisted(db.entries, scope, value, now) {
      var id :| id in db.entries && t in db.entries[id] && Unexpired(db.entries[id][t], now);
      var n :| n in db.lists && db.lists[n].id == id;
      assert t in View(db)[n].contents;
    }
  }

  // ------------------------------------------------------------ the store

  class AllowlistStore {
    var lists: Lists
    var entries: Entries
    var nextId: nat

    ghost function Tables(): Db
      reads this
    {
      Db(lists, entries, nextId)
    }

    constructor ()
      ensures Tables() == Db(map[], map[], 1)
    {
      lists, entries, nextId := map[], map[], 1;
    }

    /** Creates the list or updates its labels, and marks it managed; its entries stay as they are. */
    method UpsertManagedAllowlist(name: string, title: string, description: string, fails: bool, now: Time)
      returns (id: Option<nat>)
      modifies this`lists, this`nextId
      ensures fails ==> id.None? && Tables() == old(Tables())
      ensures !fails ==> name in lists && id == Some(lists[name].id)
      ensures !fails ==> Tables() == Upserted(old(Tables()), name, title, description, now)
      ensures !fails && name in old(lists) ==>
                && nextId == old(nextId)
                && lists == old(lists)[name := Allowlist(old(lists)[name].id, title, description, true,
                                                         old(lists)[name].createdAt, now)]
      ensures !fails && name !in old(lists) ==>
                && nextId == old(nextId) + 1
                && lists == old(lists)[name := Allowlist(old(nextId), title, description, true, now, now)]
    {
      if fails {
        id := None;
      } else if name in lists {
        var relabelled := lists[name].(title := title, description := description, managed := true, updatedAt := now);
        lists := lists[name := relabelled];
        id := Some(lists[name].id);
      } else {
        lists := lists[name := Allowlist(nextId, title, description, true, now, now)];
        id := Some(nextId);
        nextId := nextId + 1;
      }
    }

    /**
     Replaces the entries of one list in a transaction. Statement 0 clears the list, statement k inserts the k-th entry,
     and the one after the last insert commits; if one of them fails the transaction is rolled back.
     */
    method SyncManagedEntries(id: nat, wanted: seq<EntryDef>, failsAt: Option<nat>, now: Time) returns (ok: bool)
      modifies this`entries
      ensures ok <==> failsAt.None? || failsAt.value > |wanted| + 1
      ensures entries == if ok then old(entries)[id := Inserted(wanted, now)] else old(entries)
      ensures ok ==> forall t :: t in entries[id] ==>
                       entries[id][t].expiresAt == None && entries[id][t].createdAt == now
    {
      if failsAt == Some(0) { return false; }
      var tx := entries[id := map[]];
      for i := 0 to |wanted|
        invariant entries == old(entries)
        invariant failsAt.None? || failsAt.value > i
        invariant tx == entries[id := Inserted(wanted[..i], now)]
      {
        if failsAt == Some(i + 1) { return false; }
        assert wanted[..i + 1][..i] == wanted[..i];
        var t := Target(wanted[i].scope, wanted[i].value);
        var es: map<Target, Entry> := tx[id];
        if t in es {
          tx := tx[id := es[t := es[t].(comment := wanted[i].comment)]];
        } else {
          tx := tx[id := es[t := Entry(wanted[i].comment, None, now)]];
        }
      }
      assert wanted[..|wanted|] == wanted;
      if failsAt == Some(|wanted| + 1) { return false; }
      InsertedFresh(wanted, now);
      entries := tx;
      return true;
    }

    /** One definition after another; the first failure ends the load. */
    method LoadFile(defs: seq<AllowlistDef>, faults: nat -> Fault, now: Time) returns (r: Result<(), LoadError>)
      requires DbOk(Tables())
      modifies this
      ensures DbOk(Tables())
      ensures r == LoadVerdict(defs, faults)
      ensures r.Ok? ==> View(Tables()) == Loaded(View(old(Tables())), defs)
      ensures r.Err? ==>
                var applied := Loaded(View(old(Tables())), defs[..r.error.index]);
                View(Tables()) == if r.error.SyncFailed? then Renamed(applied, defs[r.error.index]) else applied
    {
      ghost var start := Tables();
      for i := 0 to |defs|
        invariant Tables() == LoadedDb(start, defs[..i], now)
        invariant Loadable(defs, faults, i)
      {
        LoadedStep(start, defs, i, now);
        r := LoadDefinition(defs[i], i, faults(i), now);
        if r.Err? {
          FailedLoad(start, defs, faults, i, now);
          return;
        }
      }
      assert defs[..|defs|] == defs;
      LoadedView(start, defs, now);
      r := Ok(());
    }

    /** The body of the load's loop: one definition of the file. */
    method LoadDefinition(def: AllowlistDef, i: nat, fault: Fault, now: Time) returns (r: Result<(), LoadError>)
      modifies this
      ensures r == Verdict(def, fault, i)
      ensures Tables() == if r.Ok? then DefinedDb(old(Tables()), def, now)
                          else FailedDb(old(Tables()), def, r.error, now)
    {
      if def.name == "" {
        return Err(MissingName(i));
      }
      var id := UpsertManagedAllowlist(def.name, def.title, def.description, fault.UpsertFails?, now);
      if id.None? {
        return Err(UpsertFailed(i));
      }
      var wanted: seq<EntryDef> := [];
      for j := 0 to |def.entries|
        invariant wanted == UsableEntries(def.entries[..j])
      {
        assert def.entries[..j + 1][..j] == def.entries[..j];
        if !Usable(def.entries[j]) {
          continue;
        }
        wanted := wanted + [def.entries[j]];
      }
      assert def.entries[..|def.entries|] == def.entries;
      var failsAt := if fault.SyncFailsAt? then Some(fault.statement) else None;
      var synced := SyncManagedEntries(id.value, wanted, failsAt, now);
      if !synced {
        return Err(SyncFailed(i));
      }
      r := Ok(());
    }
  }
}
