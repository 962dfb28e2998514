/** The v3 decision stream groups decisions: new ones by scenario and scope, deleted ones by scope. */
module Grouping {
  import opened Base
  import opened Decisions

  // ------------------------------------------------------- stable partitions

  /** The distinct keys, in order of first occurrence. */
  ghost function Keys<T, K>(xs: seq<T>, key: T -> K): seq<K> {
    if xs == [] then []
    else
      var ks, k := Keys(xs[..|xs| - 1], key), key(xs[|xs| - 1]);
      if k in ks then ks else ks + [k]
  }

  /** The elements with one key, in their order. */
  ghost function Select<T, K>(xs: seq<T>, key: T -> K, k: K): seq<T> {
    if xs == [] then []
    else
      var rest, x := Select(xs[..|xs| - 1], key, k), xs[|xs| - 1];
      if key(x) == k then rest + [x] else rest
  }

  ghost function Flatten<T, K>(xs: seq<T>, key: T -> K, ks: seq<K>): seq<T> {
    if ks == [] then [] else Flatten(xs, key, ks[..|ks| - 1]) + Select(xs, key, ks[|ks| - 1])
  }

  /** k makes its first appearance at index i. */
  ghost predicate FirstAt<T, K>(xs: seq<T>, key: T -> K, k: K, i: nat) {
    i < |xs| && key(xs[i]) == k && forall j :: 0 <= j < i ==> key(xs[j]) != k
  }

  /** k first occurs before h does. */
  ghost predicate Earlier<T, K>(xs: seq<T>, key: T -> K, k: K, h: K) {
    forall i: nat, j: nat :: FirstAt(xs, key, k, i) && FirstAt(xs, key, h, j) ==> i < j
  }

  /** The keys are exactly those that occur, each once, in the order in which they first occur. */
  lemma {:induction false} KeysInFirstOccurrenceOrder<T, K>(xs: seq<T>, key: T -> K)
    ensures forall k :: k in Keys(xs, key) <==> exists i :: 0 <= i < |xs| && key(xs[i]) == k
    ensures forall a, b :: 0 <= a < b < |Keys(xs, key)| ==> Earlier(xs, key, Keys(xs, key)[a], Keys(xs, key)[b])
    ensures forall a, b :: 0 <= a < b < |Keys(xs, key)| ==> Keys(xs, key)[a] != Keys(xs, key)[b]
  {
    if xs != [] {
      var n := |xs| - 1;
      var before, ks := Keys(xs[..n], key), Keys(xs, key);
      KeysInFirstOccurrenceOrder(xs[..n], key);
      forall k ensures k in ks <==> exists i :: 0 <= i < |xs| && key(xs[i]) == k {
        if k in before {
          var i :| 0 <= i < n && key(xs[..n][i]) == k;
          assert key(xs[i]) == k;
        }
      }
      forall a, b, i: nat, j: nat | 0 <= a < b < |ks| && FirstAt(xs, key, ks[a], i) && FirstAt(xs, key, ks[b], j)
        ensures i < j
      {
        FirstWhere(xs, key, ks[a], i, n);
        FirstWhere(xs, key, ks[b], j, n);
      }
    }
  }

  lemma FirstWhere<T, K>(xs: seq<T>, key: T -> K, k: K, i: nat, n: nat)
    requires |xs| == n + 1 && FirstAt(xs, key, k, i)
    requires forall h :: h in Keys(xs[..n], key) <==> exists j :: 0 <= j < n && key(xs[..n][j]) == h
    ensures k in Keys(xs[..n], key) ==> FirstAt(xs[..n], key, k, i)
    ensures k !in Keys(xs[..n], key) ==> i == n
  {
    if k in Keys(xs[..n], key) {
      var j :| 0 <= j < n && key(xs[..n][j]) == k;
      assert key(xs[j]) == k;
    } else {
      assert forall j :: 0 <= j < n ==> xs[..n][j] == xs[j];
    }
  }

  /** Each group is the order-preserving filter of the input by its key, and none is empty. */
  lemma {:induction false} SelectFilters<T, K>(xs: seq<T>, key: T -> K, k: K)
    ensures forall x :: x in Select(xs, key, k) <==> x in xs && key(x) == k
    ensures Select(xs, key, k) != [] <==> k in Keys(xs, key)
  {
    if xs != [] {
      var n := |xs| - 1;
      SelectFilters(xs[..n], key, k);
      assert forall x :: x in xs <==> x == xs[n] || x in xs[..n];
    }
  }

  /** Filtering keeps the order: it distributes over concatenation, and takes or leaves a single element. */
  lemma {:induction false} SelectConcat<T, K>(xs: seq<T>, ys: seq<T>, key: T -> K, k: K)
    ensures Select(xs + ys, key, k) == Select(xs, key, k) + Select(ys, key, k)
  {
    if ys == [] {
      assert xs + ys == xs;
    } else {
      var n := |ys| - 1;
      assert (xs + ys)[..|xs| + n] == xs + ys[..n];
      SelectConcat(xs, ys[..n], key, k);
    }
  }

  lemma SelectOne<T, K>(x: T, key: T -> K, k: K)
    ensures Select([x], key, k) == if key(x) == k then [x] else []
  {
    assert [x][..0] == [];
  }

  /** Of two elements of a group, the one that comes first in the input comes first in the group. */
  lemma SelectInOrder<T, K>(before: seq<T>, x: T, between: seq<T>, y: T, after: seq<T>, key: T -> K, k: K)
    requires key(x) == k && key(y) == k
    ensures Select(before + [x] + between + [y] + after, key, k) ==
            Select(before, key, k) + [x] + Select(between, key, k) + [y] + Select(after, key, k)
  {
    SelectConcat(before + [x] + between + [y], after, key, k);
    SelectConcat(before + [x] + between, [y], key, k);
    SelectConcat(before + [x], between, key, k);
    SelectConcat(before, [x], key, k);
    SelectOne(x, key, k);
    SelectOne(y, key, k);
  }

  /** A group, and several groups together, without their order. */
  ghost function Members<T, K>(xs: seq<T>, key: T -> K, k: K): multiset<T> {
    if xs == [] then multiset{}
    else
      var rest, x := Members(xs[..|xs| - 1], key, k), xs[|xs| - 1];
      if key(x) == k then rest + multiset{x} else rest
  }

  ghost function Total<T, K>(xs: seq<T>, key: T -> K, ks: seq<K>): multiset<T> {
    if ks == [] then multiset{} else Total(xs, key, ks[..|ks| - 1]) + Members(xs, key, ks[|ks| - 1])
  }

  lemma {:induction false} SelectMembers<T, K>(xs: seq<T>, key: T -> K, k: K)
    ensures multiset(Select(xs, key, k)) == Members(xs, key, k)
  {
    if xs != [] {
      SelectMembers(xs[..|xs| - 1], key, k);
    }
  }

  lemma {:induction false} FlattenTotal<T, K>(xs: seq<T>, key: T -> K, ks: seq<K>)
    ensures multiset(Flatten(xs, key, ks)) == Total(xs, key, ks)
  {
    if ks != [] {
      FlattenTotal(xs, key, ks[..|ks| - 1]);
      SelectMembers(xs, key, ks[|ks| - 1]);
    }
  }

  /** One more element goes to its own group only. */
  lemma {:induction false} TotalSnoc<T, K>(xs: seq<T>, key: T -> K, ks: seq<K>)
    requires xs != [] && forall a, b :: 0 <= a < b < |ks| ==> ks[a] != ks[b]
    ensures var n := |xs| - 1;
            Total(xs, key, ks) ==
            if key(xs[n]) in ks then Total(xs[..n], key, ks) + multiset{xs[n]} else Total(xs[..n], key, ks)
  {
    if ks != [] {
      var m, n := |ks| - 1, |xs| - 1;
      TotalSnoc(xs, key, ks[..m]);
      Regroup(Total(xs[..n], key, ks[..m]), Members(xs[..n], key, ks[m]), xs[n]);
      SplitLast(ks, key(xs[n]));
    }
  }

  lemma Regroup<T>(a: multiset<T>, b: multiset<T>, x: T)
    ensures (a + multiset{x}) + b == (a + b) + multiset{x}
    ensures a + (b + multiset{x}) == (a + b) + multiset{x}
  {
  }

  lemma SplitLast<K>(ks: seq<K>, k: K)
    requires ks != [] && forall a, b :: 0 <= a < b < |ks| ==> ks[a] != ks[b]
    ensures k in ks <==> k == ks[|ks| - 1] || k in ks[..|ks| - 1]
    ensures k == ks[|ks| - 1] ==> k !in ks[..|ks| - 1]
  {
  }

  lemma {:induction false} TotalIsAll<T, K>(xs: seq<T>, key: T -> K)
    ensures Total(xs, key, Keys(xs, key)) == multiset(xs)
  {
    if xs != [] {
      var n := |xs| - 1;
      var before, ks, k := Keys(xs[..n], key), Keys(xs, key), key(xs[n]);
      TotalIsAll(xs[..n], key);
      KeysInFirstOccurrenceOrder(xs[..n], key);
      assert xs == xs[..n] + [xs[n]];
      TotalSnoc(xs, key, before);
      if k !in before {
        SelectFilters(xs[..n], key, k);
        SelectMembers(xs[..n], key, k);
        assert Members(xs, key, k) == multiset{xs[n]};
        assert ks[..|ks| - 1] == before;
      }
    }
  }

  /** The flattened groups are a permutation of the input. */
  lemma GroupsPermute<T, K>(xs: seq<T>, key: T -> K)
    ensures multiset(Flatten(xs, key, Keys(xs, key))) == multiset(xs)
  {
    FlattenTotal(xs, key, Keys(xs, key));
    TotalIsAll(xs, key);
  }

  lemma SelectStep<T, K>(xs: seq<T>, key: T -> K, i: nat, k: K)
    requires i < |xs|
    ensures Select(xs[..i + 1], key, k) ==
            if key(xs[i]) == k then Select(xs[..i], key, k) + [xs[i]] else Select(xs[..i], key, k)
    ensures Keys(xs[..i + 1], key) ==
            if key(xs[i]) in Keys(xs[..i], key) then Keys(xs[..i], key) else Keys(xs[..i], key) + [key(xs[i])]
  {
    assert xs[..i + 1][..i] == xs[..i];
  }

  /** The state of the grouping loop after xs: one finished group for each key met, the keys in order. */
  ghost predicate Grouped<T, K(!new), G>(
    groups: map<K, G>, order: seq<K>, xs: seq<T>, key: T -> K, make: (K, seq<T>) -> G)
  {
    && order == Keys(xs, key)
    && (forall k :: k in groups <==> k in order)
    && (forall k :: k in groups ==> groups[k] == make(k, Select(xs, key, k)))
  }

  lemma GroupedStep<T, K(!new), G>(
    groups: map<K, G>, order: seq<K>, xs: seq<T>, key: T -> K, make: (K, seq<T>) -> G, i: nat, g: G)
    requires i < |xs| && Grouped(groups, order, xs[..i], key, make)
    requires g == make(key(xs[i]), Select(xs[..i], key, key(xs[i])) + [xs[i]])
    ensures var k := key(xs[i]);
            Grouped(groups[k := g], if k in groups then order else order + [k], xs[..i + 1], key, make)
  {
    var k := key(xs[i]);
    SelectStep(xs, key, i, k);
    forall h | h in groups && h != k ensures Select(xs[..i + 1], key, h) == Select(xs[..i], key, h) {
      SelectStep(xs, key, i, h);
    }
  }

  /** The group the loop appends to, opened empty if its key is new, is the one made of its elements so far. */
  lemma OpenedGroup<T, K(!new), G>(
    groups: map<K, G>, order: seq<K>, xs: seq<T>, key: T -> K, make: (K, seq<T>) -> G, k: K)
    requires Grouped(groups, order, xs, key, make)
    ensures (if k in groups then groups[k] else make(k, [])) == make(k, Select(xs, key, k))
  {
    SelectFilters(xs, key, k);
  }

  // ------------------------------------------------------------ the handler

  datatype NewKey = NewKey(scenario: string, scope: string)
  datatype NewItem = NewItem(durationSecs: int, value: string)
  datatype NewGroup = NewGroup(scenario: string, scope: string, decisions: seq<NewItem>)
  datatype DeletedGroup = DeletedGroup(scope: string, decisions: seq<string>)

  function NewKeyOf(r: Row): NewKey {
    NewKey(match r.scenario case None => "" case Some(s) => s, r.scope)
  }

  function ScopeOf(r: Row): string {
    r.scope
  }

  function NewItems(rows: seq<Row>): seq<NewItem> {
    seq(|rows|, i requires 0 <= i < |rows| => NewItem(rows[i].durationSecs, rows[i].value))
  }

  function Values(rows: seq<Row>): seq<string> {
    seq(|rows|, i requires 0 <= i < |rows| => rows[i].value)
  }

  function NewGroupOf(k: NewKey, rows: seq<Row>): NewGroup {
    NewGroup(k.scenario, k.scope, NewItems(rows))
  }

  function DeletedGroupOf(scope: string, rows: seq<Row>): DeletedGroup {
    DeletedGroup(scope, Values(rows))
  }

  /** One group for each key, in the order of first occurrence, made of the elements with that key in their order. */
  ghost predicate NewGroupsOf(list: seq<NewGroup>, decisions: seq<Row>) {
    var ks := Keys(decisions, NewKeyOf);
    && |list| == |ks|
    && forall i :: 0 <= i < |ks| ==> list[i] == NewGroupOf(ks[i], Select(decisions, NewKeyOf, ks[i]))
  }

  ghost predicate DeletedGroupsOf(list: seq<DeletedGroup>, decisions: seq<Row>) {
    var ks := Keys(decisions, ScopeOf);
    && |list| == |ks|
    && forall i :: 0 <= i < |ks| ==> list[i] == DeletedGroupOf(ks[i], Select(decisions, ScopeOf, ks[i]))
  }

  lemma AppendsToGroup(k: NewKey, rows: seq<Row>, r: Row)
    ensures NewGroupOf(k, rows + [r]).decisions == NewGroupOf(k, rows).decisions + [NewItem(r.durationSecs, r.value)]
    ensures DeletedGroupOf(k.scope, rows + [r]).decisions == DeletedGroupOf(k.scope, rows).decisions + [r.value]
  {
  }

  /** The groups listed in the order in which their keys were met. */
  method InOrder<K(==), G>(groups: map<K, G>, order: seq<K>) returns (list: seq<G>)
    requires forall k :: k in order ==> k in groups
    ensures |list| == |order| && forall j :: 0 <= j < |order| ==> list[j] == groups[order[j]]
  {
    list := [];
    for i := 0 to |order|
      invariant |list| == i
      invariant forall j :: 0 <= j < i ==> list[j] == groups[order[j]]
    {
      list := list + [groups[order[i]]];
    }
  }

  method GroupNew(decisions: seq<Row>) returns (list: seq<NewGroup>)
    ensures NewGroupsOf(list, decisions)
  {
    var groups: map<NewKey, NewGroup>, order: seq<NewKey> := map[], [];
    for i := 0 to |decisions|
      invariant Grouped(groups, order, decisions[..i], NewKeyOf, NewGroupOf)
    {
      var d := decisions[i];
      var scenario := "";
      if d.scenario.Some? {
        scenario := d.scenario.value;
      }
      var k := NewKey(scenario, d.scope);
      assert k == NewKeyOf(d);
      OpenedGroup(groups, order, decisions[..i], NewKeyOf, NewGroupOf, k);
      ghost var before, keys := groups, order;
      if k !in groups {
        groups := groups[k := NewGroup(scenario, d.scope, [])];
        order := order + [k];
      }
      var g := groups[k].(decisions := groups[k].decisions + [NewItem(d.durationSecs, d.value)]);
      AppendsToGroup(k, Select(decisions[..i], NewKeyOf, k), d);
      GroupedStep(before, keys, decisions, NewKeyOf, NewGroupOf, i, g);
      assert groups[k := g] == before[k := g];
      groups := groups[k := g];
    }
    assert decisions[..|decisions|] == decisions;
    list := InOrder(groups, order);
  }

  method GroupDeleted(decisions: seq<Row>) returns (list: seq<DeletedGroup>)
    ensures DeletedGroupsOf(list, decisions)
  {
    var groups: map<string, DeletedGroup>, order: seq<string> := map[], [];
    for i := 0 to |decisions|
      invariant Grouped(groups, order, decisions[..i], ScopeOf, DeletedGroupOf)
    {
      var d := decisions[i];
      OpenedGroup(groups, order, decisions[..i], ScopeOf, DeletedGroupOf, d.scope);
      ghost var before, keys := groups, order;
      if d.scope !in groups {
        groups := groups[d.scope := DeletedGroup(d.scope, [])];
        order := order + [d.scope];
      }
      var g := groups[d.scope].(decisions := groups[d.scope].decisions + [d.value]);
      AppendsToGroup(NewKey("", d.scope), Select(decisions[..i], ScopeOf, d.scope), d);
      GroupedStep(before, keys, decisions, ScopeOf, DeletedGroupOf, i, g);
      assert groups[d.scope := g] == before[d.scope := g];
      groups := groups[d.scope := g];
    }
    assert decisions[..|decisions|] == decisions;
    list := InOrder(groups, order);
  }

  // --------------------------------------------- nothing is lost in the lists

  ghost function Map<S, T>(f: S -> T, xs: seq<S>): seq<T> {
    seq(|xs|, i requires 0 <= i < |xs| => f(xs[i]))
  }

  /** What an agent learns about one new decision. */
  datatype NewEntry = NewEntry(scenario: string, scope: string, durationSecs: int, value: string)

  /** What the agent reads out of a list of new groups. */
  ghost function NewEntries(list: seq<NewGroup>): seq<NewEntry> {
    if list == [] then []
    else
      var g := list[|list| - 1];
      NewEntries(list[..|list| - 1]) +
      Map((x: NewItem) => NewEntry(g.scenario, g.scope, x.durationSecs, x.value), g.decisions)
  }

  ghost function DeletedEntries(list: seq<DeletedGroup>): seq<(string, string)> {
    if list == [] then []
    else
      var g := list[|list| - 1];
      DeletedEntries(list[..|list| - 1]) + Map((x: string) => (g.scope, x), g.decisions)
  }

  function EntryOf(r: Row): NewEntry {
    NewEntry(if r.scenario.Some? then r.scenario.value else "", r.scope, r.durationSecs, r.value)
  }

  function DeletedEntry(r: Row): (string, string) {
    (r.scope, r.value)
  }

  /** Two permutations of each other stay so without the last element of the first. */
  lemma TakenOut<S>(xs: seq<S>, ys: seq<S>) returns (j: nat)
    requires xs != [] && multiset(xs) == multiset(ys)
    ensures j < |ys| && ys[j] == xs[|xs| - 1]
    ensures multiset(xs[..|xs| - 1]) == multiset(ys[..j] + ys[j + 1..])
  {
    var n := |xs| - 1;
    assert xs[n] in multiset(ys);
    j :| 0 <= j < |ys| && ys[j] == xs[n];
    assert xs == xs[..n] + [xs[n]];
    assert ys == ys[..j] + [ys[j]] + ys[j + 1..];
    assert multiset(xs[..n]) == multiset(xs) - multiset{xs[n]};
  }

  lemma {:induction false} MapPermutes<S, T>(f: S -> T, xs: seq<S>, ys: seq<S>)
    requires multiset(xs) == multiset(ys)
    ensures multiset(Map(f, xs)) == multiset(Map(f, ys))
  {
    if xs == [] {
      assert |multiset(ys)| == 0;
    } else {
      var n := |xs| - 1;
      var j := TakenOut(xs, ys);
      MapPermutes(f, xs[..n], ys[..j] + ys[j + 1..]);
      assert Map(f, xs) == Map(f, xs[..n]) + [f(xs[n])];
      assert Map(f, ys[..j] + ys[j + 1..]) == Map(f, ys[..j]) + Map(f, ys[j + 1..]);
      assert Map(f, ys) == Map(f, ys[..j]) + [f(ys[j])] + Map(f, ys[j + 1..]);
    }
  }

  lemma NewGroupEntries(k: NewKey, mine: seq<Row>)
    requires forall i :: 0 <= i < |mine| ==> NewKeyOf(mine[i]) == k
    ensures Map((x: NewItem) => NewEntry(k.scenario, k.scope, x.durationSecs, x.value), NewItems(mine))
         == Map(EntryOf, mine)
  {
    forall i | 0 <= i < |mine|
      ensures var x := NewItems(mine)[i]; EntryOf(mine[i]) == NewEntry(k.scenario, k.scope, x.durationSecs, x.value)
    {
      assert NewKeyOf(mine[i]) == k;
    }
  }

  lemma {:induction false} NewEntriesFlatten(list: seq<NewGroup>, decisions: seq<Row>, ks: seq<NewKey>)
    requires |list| == |ks|
    requires forall i :: 0 <= i < |ks| ==> list[i] == NewGroupOf(ks[i], Select(decisions, NewKeyOf, ks[i]))
    ensures NewEntries(list) == Map(EntryOf, Flatten(decisions, NewKeyOf, ks))
  {
    if ks != [] {
      var n := |ks| - 1;
      NewEntriesFlatten(list[..n], decisions, ks[..n]);
      var mine := Select(decisions, NewKeyOf, ks[n]);
      assert forall i :: 0 <= i < |mine| ==> NewKeyOf(mine[i]) == ks[n] by {
        SelectFilters(decisions, NewKeyOf, ks[n]);
        assert forall i :: 0 <= i < |mine| ==> mine[i] in mine;
      }
      NewGroupEntries(ks[n], mine);
      MapConcat(EntryOf, Flatten(decisions, NewKeyOf, ks[..n]), mine);
    }
  }

  lemma DeletedGroupEntries(scope: string, mine: seq<Row>)
    requires forall i :: 0 <= i < |mine| ==> mine[i].scope == scope
    ensures Map((x: string) => (scope, x), Values(mine)) == Map(DeletedEntry, mine)
  {
    forall i | 0 <= i < |mine| ensures DeletedEntry(mine[i]) == (scope, Values(mine)[i]) {
    }
  }

  lemma {:induction false} DeletedEntriesFlatten(list: seq<DeletedGroup>, decisions: seq<Row>, ks: seq<string>)
    requires |list| == |ks|
    requires forall i :: 0 <= i < |ks| ==> list[i] == DeletedGroupOf(ks[i], Select(decisions, ScopeOf, ks[i]))
    ensures DeletedEntries(list) == Map(DeletedEntry, Flatten(decisions, ScopeOf, ks))
  {
    if ks != [] {
      var n := |ks| - 1;
      DeletedEntriesFlatten(list[..n], decisions, ks[..n]);
      var mine := Select(decisions, ScopeOf, ks[n]);
      assert forall i :: 0 <= i < |mine| ==> mine[i].scope == ks[n] by {
        SelectFilters(decisions, ScopeOf, ks[n]);
        assert forall i :: 0 <= i < |mine| ==> mine[i] in mine && ScopeOf(mine[i]) == mine[i].scope;
      }
      DeletedGroupEntries(ks[n], mine);
      MapConcat(DeletedEntry, Flatten(decisions, ScopeOf, ks[..n]), mine);
    }
  }

  lemma MapConcat<S, T>(f: S -> T, xs: seq<S>, ys: seq<S>)
    ensures Map(f, xs + ys) == Map(f, xs) + Map(f, ys)
  {
  }

  /** The list of new groups holds each decision's scenario, scope and item, as often as the input does. */
  lemma NewListPermutes(list: seq<NewGroup>, decisions: seq<Row>)
    requires NewGroupsOf(list, decisions)
    ensures multiset(NewEntries(list)) == multiset(Map(EntryOf, decisions))
  {
    var ks := Keys(decisions, NewKeyOf);
    NewEntriesFlatten(list, decisions, ks);
    GroupsPermute(decisions, NewKeyOf);
    MapPermutes(EntryOf, Flatten(decisions, NewKeyOf, ks), decisions);
  }

  /** The new groups of one (scenario, scope): some row has them, and the group lists those rows in order. */
  lemma NewGroupReads(list: seq<NewGroup>, decisions: seq<Row>, g: nat)
    requires NewGroupsOf(list, decisions) && g < |list|
    ensures exists r :: r in decisions && r.scope == list[g].scope &&
                        list[g].scenario == if r.scenario.Some? then r.scenario.value else ""
    ensures var mine := Select(decisions, ScenarioAndScope, (list[g].scenario, list[g].scope));
            && |list[g].decisions| == |mine|
            && forall i :: 0 <= i < |mine| ==>
                 && list[g].decisions[i].durationSecs == mine[i].durationSecs
                 && list[g].decisions[i].value == mine[i].value
  {
    var k := Keys(decisions, NewKeyOf)[g];
    KeysInFirstOccurrenceOrder(decisions, NewKeyOf);
    assert k in Keys(decisions, NewKeyOf);
    var i :| 0 <= i < |decisions| && NewKeyOf(decisions[i]) == k;
    assert decisions[i] in decisions;
    SameSelect(decisions, k);
  }

  function ScenarioAndScope(r: Row): (string, string) {
    (if r.scenario.Some? then r.scenario.value else "", r.scope)
  }

  lemma {:induction false} SameSelect(decisions: seq<Row>, k: NewKey)
    ensures Select(decisions, NewKeyOf, k) == Select(decisions, ScenarioAndScope, (k.scenario, k.scope))
  {
    if decisions != [] {
      SameSelect(decisions[..|decisions| - 1], k);
    }
  }

  /** The same for a deleted group and its scope. */
  lemma DeletedGroupReads(list: seq<DeletedGroup>, decisions: seq<Row>, g: nat)
    requires DeletedGroupsOf(list, decisions) && g < |list|
    ensures exists r :: r in decisions && r.scope == list[g].scope
    ensures var mine := Select(decisions, (r: Row) => r.scope, list[g].scope);
            && |list[g].decisions| == |mine|
            && forall i :: 0 <= i < |mine| ==> list[g].decisions[i] == mine[i].value
  {
    var k := Keys(decisions, ScopeOf)[g];
    KeysInFirstOccurrenceOrder(decisions, ScopeOf);
    assert k in Keys(decisions, ScopeOf);
    var i :| 0 <= i < |decisions| && ScopeOf(decisions[i]) == k;
    assert decisions[i] in decisions;
    SameSelectByScope(decisions, (r: Row) => r.scope, k);
  }

  lemma {:induction false} SameSelectByScope(decisions: seq<Row>, key: Row -> string, scope: string)
    requires forall r :: key(r) == r.scope
    ensures Select(decisions, ScopeOf, scope) == Select(decisions, key, scope)
  {
    if decisions != [] {
      SameSelectByScope(decisions[..|decisions| - 1], key, scope);
    }
  }

  /** The list of deleted groups holds each decision's scope and value, as often as the input does. */
  lemma DeletedListPermutes(list: seq<DeletedGroup>, decisions: seq<Row>)
    requires DeletedGroupsOf(list, decisions)
    ensures multiset(DeletedEntries(list)) == multiset(Map(DeletedEntry, decisions))
  {
    var ks := Keys(decisions, ScopeOf);
    DeletedEntriesFlatten(list, decisions, ks);
    GroupsPermute(decisions, ScopeOf);
    MapPermutes(DeletedEntry, Flatten(decisions, ScopeOf, ks), decisions);
  }
}
