/** One installed version of the mapping contract, and what it resolves. */
module MappingSnapshot {
  import opened Wrappers
  import opened ResourceContracts
  import opened MappingContract

  datatype Snapshot = Snapshot(doc: Document, installedAt: int, maxStaleMs: nat,
                               subjects: map<Identity, SubjectRow>, clients: map<Identity, ClientRow>)

  datatype Resolution = Resolution(subject: Identity, clientId: string)

  datatype Outcome = Resolved(to: Resolution) | Unresolved | Stale | WrongMissionIssuer

  /** The row each identity maps to: rows in order, a later row replacing an earlier one. */
  function IndexRows<R>(rows: seq<R>, from: R -> Identity): map<Identity, R> {
    if rows == [] then map[]
    else IndexRows(rows[..|rows| - 1], from)[from(rows[|rows| - 1]) := rows[|rows| - 1]]
  }

  function SnapshotOf(doc: Document, installedAt: int, maxStaleMs: nat): Snapshot {
    Snapshot(doc, installedAt, maxStaleMs,
             IndexRows(doc.subjects, (row: SubjectRow) => row.from),
             IndexRows(doc.clients, (row: ClientRow) => row.from))
  }

  /** The constructor's loops: every row set under its identity. */
  method BuildIndex<R>(rows: seq<R>, from: R -> Identity) returns (index: map<Identity, R>)
    ensures index == IndexRows(rows, from)
  {
    index := map[];
    for i := 0 to |rows|
      invariant index == IndexRows(rows[..i], from)
    {
      assert rows[..i + 1][..i] == rows[..i];
      index := index[from(rows[i]) := rows[i]];
    }
    assert rows[..|rows|] == rows;
  }

  method BuildSnapshot(doc: Document, installedAt: int, maxStaleMs: nat) returns (s: Snapshot)
    ensures s == SnapshotOf(doc, installedAt, maxStaleMs)
  {
    var subjects := BuildIndex(doc.subjects, (row: SubjectRow) => row.from);
    var clients := BuildIndex(doc.clients, (row: ClientRow) => row.from);
    s := Snapshot(doc, installedAt, maxStaleMs, subjects, clients);
  }

  ghost predicate OneRowEach<R(!new)>(rows: seq<R>, from: R -> Identity) {
    forall i, j :: 0 <= i < j < |rows| ==> from(rows[i]) != from(rows[j])
  }

  /** With one row per identity, a lookup finds exactly the row that names the identity. */
  lemma {:induction false} IndexFindsTheRow<R(!new)>(rows: seq<R>, from: R -> Identity, id: Identity)
    requires OneRowEach(rows, from)
    ensures id in IndexRows(rows, from) <==> exists i :: 0 <= i < |rows| && from(rows[i]) == id
    ensures forall i :: 0 <= i < |rows| && from(rows[i]) == id ==> IndexRows(rows, from)[id] == rows[i]
  {
    if rows != [] {
      var n := |rows| - 1;
      assert forall i :: 0 <= i < n ==> rows[..n][i] == rows[i];
      IndexFindsTheRow(rows[..n], from, id);
    }
  }

  /** The order of the rows is immaterial: the same rows in any order give the same index. */
  lemma IndexIgnoresOrder<R(!new)>(rows: seq<R>, rows': seq<R>, from: R -> Identity)
    requires OneRowEach(rows, from) && OneRowEach(rows', from)
    requires forall row :: row in rows <==> row in rows'
    ensures IndexRows(rows, from) == IndexRows(rows', from)
  {
    var index, index' := IndexRows(rows, from), IndexRows(rows', from);
    forall id
      ensures (id in index <==> id in index') && (id in index ==> index[id] == index'[id])
    {
      IndexFindsTheRow(rows, from, id);
      IndexFindsTheRow(rows', from, id);
      forall i | 0 <= i < |rows| && from(rows[i]) == id
        ensures exists j :: 0 <= j < |rows'| && rows'[j] == rows[i]
      {
        assert rows[i] in rows';
      }
      forall j | 0 <= j < |rows'| && from(rows'[j]) == id
        ensures exists i :: 0 <= i < |rows| && rows[i] == rows'[j]
      {
        assert rows'[j] in rows;
      }
    }
  }

  /** Usable from install until the staleness bound later, both ends included, and never before install. */
  predicate Fresh(s: Snapshot, now: int) {
    0 <= now - s.installedAt <= s.maxStaleMs
  }

  function Resolve(s: Snapshot, subject: Identity, client: Identity, missionIssuer: string, now: int): Outcome {
    if !Fresh(s, now) then Stale
    else if missionIssuer != s.doc.missionIssuer then WrongMissionIssuer
    else if subject !in s.subjects || !s.subjects[subject].active || client !in s.clients || !s.clients[client].active
    then Unresolved
    else Resolved(Resolution(s.subjects[subject].to, s.clients[client].to))
  }

  function ClientFor(s: Snapshot, client: Identity, now: int): Option<string> {
    if Fresh(s, now) && client in s.clients && s.clients[client].active then Some(s.clients[client].to) else None
  }

  /** The rows of `doc` that decide a join: both active, naming exactly these identities. */
  ghost predicate Maps(doc: Document, subject: Identity, client: Identity, to: Resolution) {
    && (exists i :: 0 <= i < |doc.subjects| && doc.subjects[i] == SubjectRow(subject, to.subject, true))
    && (exists j :: 0 <= j < |doc.clients| && doc.clients[j] == ClientRow(client, to.clientId, true))
  }

  /**
   * A snapshot of an accepted document resolves an identity to `to` exactly
   * within the closed window from install to install plus the bound, at the
   * document's Mission issuer, where the document's active rows map it to `to`.
   */
  lemma ResolvesExactly(doc: Document, installedAt: int, maxStaleMs: nat, subject: Identity, client: Identity,
                        missionIssuer: string, now: int, to: Resolution)
    requires Accepted(doc)
    ensures Resolve(SnapshotOf(doc, installedAt, maxStaleMs), subject, client, missionIssuer, now) == Resolved(to) <==>
            installedAt <= now <= installedAt + maxStaleMs && missionIssuer == doc.missionIssuer &&
            Maps(doc, subject, client, to)
  {
    IndexFindsTheRow(doc.subjects, (row: SubjectRow) => row.from, subject);
    IndexFindsTheRow(doc.clients, (row: ClientRow) => row.from, client);
  }

  /**
   * What each outcome means: outside the window a resolution is stale, whatever
   * is asked; inside it, at another Mission issuer, it is for the wrong one;
   * and only at the right one do the rows decide.
   */
  lemma OutcomesExactly(doc: Document, installedAt: int, maxStaleMs: nat, subject: Identity, client: Identity,
                        missionIssuer: string, now: int)
    requires Accepted(doc)
    ensures var outcome := Resolve(SnapshotOf(doc, installedAt, maxStaleMs), subject, client, missionIssuer, now);
            var inTime := installedAt <= now <= installedAt + maxStaleMs;
            && (outcome == Stale <==> !inTime)
            && (outcome == WrongMissionIssuer <==> inTime && missionIssuer != doc.missionIssuer)
            && (outcome == Unresolved <==>
                inTime && missionIssuer == doc.missionIssuer && forall to :: !Maps(doc, subject, client, to))
  {
    var outcome := Resolve(SnapshotOf(doc, installedAt, maxStaleMs), subject, client, missionIssuer, now);
    forall to
      ensures outcome == Resolved(to) <==>
              installedAt <= now <= installedAt + maxStaleMs && missionIssuer == doc.missionIssuer &&
              Maps(doc, subject, client, to)
    {
      ResolvesExactly(doc, installedAt, maxStaleMs, subject, client, missionIssuer, now, to);
    }
  }

  /**
   * A client is answered exactly within that window, by the document's active row for it, whatever its Mission issuer.
   */
  lemma ClientForExactly(doc: Document, installedAt: int, maxStaleMs: nat, client: Identity, now: int, to: string)
    requires Accepted(doc)
    ensures ClientFor(SnapshotOf(doc, installedAt, maxStaleMs), client, now) == Some(to) <==>
            installedAt <= now <= installedAt + maxStaleMs &&
            exists j :: 0 <= j < |doc.clients| && doc.clients[j] == ClientRow(client, to, true)
  {
    IndexFindsTheRow(doc.clients, (row: ClientRow) => row.from, client);
  }

  // ---- The authority a credential's scope values confer ----

  datatype AuthorityEntry = AuthorityEntry(resource: string, actions: set<string>, contract: Option<ContractRef>)

  datatype Group = Group(key: string, entry: AuthorityEntry)

  function ContractKey(contract: Option<ContractRef>): string {
    if contract.None? then "" else GroupKey(contract.value)
  }

  /** What one presented value confers, if the mapping covers it. */
  ghost predicate Confers(mapping: Rec<MappedScope>, value: string, contract: Option<ContractRef>, action: string) {
    var m := OwnValue(mapping, value);
    m.Some? && m.value.contract == contract && action in m.value.actions
  }

  ghost predicate Covers(mapping: Rec<MappedScope>, value: string, contract: Option<ContractRef>) {
    var m := OwnValue(mapping, value);
    m.Some? && m.value.contract == contract
  }

  ghost predicate HasEntry(groups: seq<Group>, contract: Option<ContractRef>) {
    exists i :: 0 <= i < |groups| && groups[i].entry.contract == contract
  }

  ghost predicate SomeValueCovers(values: seq<string>, mapping: Rec<MappedScope>, contract: Option<ContractRef>) {
    exists v :: v in values && Covers(mapping, v, contract)
  }

  ghost predicate SomeValueConfers(values: seq<string>, mapping: Rec<MappedScope>, contract: Option<ContractRef>,
                                   action: string) {
    exists v :: v in values && Confers(mapping, v, contract, action)
  }

  /** At the resource, and no two entries under one contract. */
  ghost predicate Shaped(groups: seq<Group>, resource: string) {
    && (forall i :: 0 <= i < |groups| ==>
          groups[i].entry.resource == resource && groups[i].key == ContractKey(groups[i].entry.contract))
    && (forall i, j :: 0 <= i < j < |groups| ==> groups[i].entry.contract != groups[j].entry.contract)
  }

  /** An entry's actions are those the presented values grant under its contract, no more and no fewer. */
  ghost predicate ActionsExact(groups: seq<Group>, values: seq<string>, mapping: Rec<MappedScope>) {
    forall i, a :: 0 <= i < |groups| ==>
      (a in groups[i].entry.actions <==> SomeValueConfers(values, mapping, groups[i].entry.contract, a))
  }

  /** There is an entry for exactly the contracts the presented values state, "none" among them. */
  ghost predicate ContractsExact(groups: seq<Group>, values: seq<string>, mapping: Rec<MappedScope>) {
    forall c :: HasEntry(groups, c) <==> SomeValueCovers(values, mapping, c)
  }

  /** The value at `p` is the first presented that states the contract. */
  ghost predicate FirstCovers(values: seq<string>, mapping: Rec<MappedScope>, p: nat, contract: Option<ContractRef>) {
    && p < |values| && Covers(mapping, values[p], contract)
    && forall q :: 0 <= q < p ==> !Covers(mapping, values[q], contract)
  }

  ghost predicate MetBefore(values: seq<string>, mapping: Rec<MappedScope>, c: Option<ContractRef>,
                            c': Option<ContractRef>) {
    exists p: nat, q: nat :: p < q && FirstCovers(values, mapping, p, c) && FirstCovers(values, mapping, q, c')
  }

  /** Entries stand in the order their contracts are first met. */
  ghost predicate InOrderMet(groups: seq<Group>, values: seq<string>, mapping: Rec<MappedScope>) {
    forall i, j :: 0 <= i < j < |groups| ==>
      MetBefore(values, mapping, groups[i].entry.contract, groups[j].entry.contract)
  }

  /**
   * The entries are exactly the presented values' actions, one entry per contract stated, none combined, in the order
   * first met.
   */
  ghost predicate Grouped(groups: seq<Group>, values: seq<string>, mapping: Rec<MappedScope>, resource: string) {
    && Shaped(groups, resource) && ContractsExact(groups, values, mapping) && ActionsExact(groups, values, mapping)
    && InOrderMet(groups, values, mapping)
  }

  ghost predicate WellFormedMapping(mapping: Rec<MappedScope>) {
    forall v :: OwnValue(mapping, v).Some? && OwnValue(mapping, v).value.contract.Some? ==>
      WellFormed(OwnValue(mapping, v).value.contract.value)
  }

  lemma ContractKeyIdentifies(a: Option<ContractRef>, b: Option<ContractRef>)
    requires a.Some? ==> WellFormed(a.value)
    requires b.Some? ==> WellFormed(b.value)
    requires ContractKey(a) == ContractKey(b)
    ensures a == b
  {
    if a.Some? && b.Some? {
      GroupKeyIdentifies(a.value, b.value);
    }
  }

  function FindGroup(groups: seq<Group>, key: string): (i: nat)
    ensures i <= |groups|
    ensures i < |groups| ==> groups[i].key == key
    ensures forall k :: 0 <= k < i ==> groups[k].key != key
  {
    if groups == [] || groups[0].key == key then 0 else 1 + FindGroup(groups[1..], key)
  }

  /** One presented value added to the groups: into its contract's group, or a new one. */
  function AddValue(groups: seq<Group>, mapped: MappedScope, resource: string): seq<Group> {
    var key := ContractKey(mapped.contract);
    var i := FindGroup(groups, key);
    var actions := set a | a in mapped.actions;
    if i == |groups| then groups + [Group(key, AuthorityEntry(resource, actions, mapped.contract))]
    else groups[i := groups[i].(entry := groups[i].entry.(actions := groups[i].entry.actions + actions))]
  }

  /** The entries of `scopeMappingEntries`: grouped by contract, in the order first met. */
  method ScopeMappingEntries(values: seq<string>, mapping: Rec<MappedScope>, resource: string)
    returns (groups: seq<Group>)
    requires WellFormedMapping(mapping)
    ensures Grouped(groups, values, mapping, resource)
  {
    groups := [];
    for n := 0 to |values|
      invariant Grouped(groups, values[..n], mapping, resource)
    {
      var m := OwnValue(mapping, values[n]);
      ghost var before := groups;
      if m.Some? {
        groups := AddValue(groups, m.value, resource);
      }
      ValueGrouped(before, values, n, mapping, resource);
    }
    assert values[..|values|] == values;
  }

  lemma ValueGrouped(groups: seq<Group>, values: seq<string>, n: nat, mapping: Rec<MappedScope>, resource: string)
    requires n < |values| && WellFormedMapping(mapping) && Grouped(groups, values[..n], mapping, resource)
    ensures var m := OwnValue(mapping, values[n]);
            Grouped(if m.Some? then AddValue(groups, m.value, resource) else groups, values[..n + 1], mapping, resource)
  {
    var m := OwnValue(mapping, values[n]);
    MoreValues(values, n, mapping);
    OrderStays(groups, values, n, mapping);
    if m.Some? {
      GroupOfContract(groups, values[..n], mapping, resource, m.value);
      AddedShape(groups, m.value, resource);
      AddedContracts(groups, values, n, mapping, resource);
      AddedActions(groups, values, n, mapping, resource);
      AddedOrder(groups, values, n, mapping, resource);
    }
  }

  lemma {:induction false} SomeValueIsFirst(values: seq<string>, mapping: Rec<MappedScope>,
                                            contract: Option<ContractRef>) returns (p: nat)
    requires SomeValueCovers(values, mapping, contract)
    ensures FirstCovers(values, mapping, p, contract)
  {
    p := 0;
    while !Covers(mapping, values[p], contract)
      invariant p < |values| && forall q :: 0 <= q < p ==> !Covers(mapping, values[q], contract)
      invariant exists v :: v in values[p..] && Covers(mapping, v, contract)
      decreases |values| - p
    {
      assert values[p..] == [values[p]] + values[p + 1..];
      p := p + 1;
    }
  }

  lemma OrderStays(groups: seq<Group>, values: seq<string>, n: nat, mapping: Rec<MappedScope>)
    requires n < |values| && InOrderMet(groups, values[..n], mapping)
    ensures InOrderMet(groups, values[..n + 1], mapping)
  {
    forall i, j | 0 <= i < j < |groups|
      ensures MetBefore(values[..n + 1], mapping, groups[i].entry.contract, groups[j].entry.contract)
    {
      var c, c' := groups[i].entry.contract, groups[j].entry.contract;
      assert MetBefore(values[..n], mapping, c, c');
      var p: nat, q: nat :|
        p < q && FirstCovers(values[..n], mapping, p, c) && FirstCovers(values[..n], mapping, q, c');
      assert FirstCovers(values[..n + 1], mapping, p, c) && FirstCovers(values[..n + 1], mapping, q, c');
    }
  }

  lemma {:induction false} AddedOrder(groups: seq<Group>, values: seq<string>, n: nat, mapping: Rec<MappedScope>,
                                      resource: string)
    requires n < |values| && OwnValue(mapping, values[n]).Some?
    requires InOrderMet(groups, values[..n + 1], mapping) && ContractsExact(groups, values[..n], mapping)
    requires var c := OwnValue(mapping, values[n]).value.contract;
             var i := FindGroup(groups, ContractKey(c));
             (i < |groups| ==> groups[i].entry.contract == c) && (i == |groups| ==> !HasEntry(groups, c))
    ensures InOrderMet(AddValue(groups, OwnValue(mapping, values[n]).value, resource), values[..n + 1], mapping)
  {
    var mapped := OwnValue(mapping, values[n]).value;
    var next := AddValue(groups, mapped, resource);
    forall i, j | 0 <= i < j < |next|
      ensures MetBefore(values[..n + 1], mapping, next[i].entry.contract, next[j].entry.contract)
    {
      var c, c' := next[i].entry.contract, next[j].entry.contract;
      if j < |groups| {
        assert c == groups[i].entry.contract && c' == groups[j].entry.contract;
      } else {
        assert HasEntry(groups, c) && !SomeValueCovers(values[..n], mapping, c');
        var p := SomeValueIsFirst(values[..n], mapping, c);
        assert FirstCovers(values[..n + 1], mapping, p, c);
        assert forall q :: 0 <= q < n ==> values[..n][q] in values[..n] && values[..n][q] == values[..n + 1][q];
        assert FirstCovers(values[..n + 1], mapping, n, c');
      }
    }
  }

  lemma MoreValues(values: seq<string>, n: nat, mapping: Rec<MappedScope>)
    requires n < |values|
    ensures forall c :: SomeValueCovers(values[..n + 1], mapping, c) <==>
                        SomeValueCovers(values[..n], mapping, c) || Covers(mapping, values[n], c)
    ensures forall c, a :: SomeValueConfers(values[..n + 1], mapping, c, a) <==>
                           SomeValueConfers(values[..n], mapping, c, a) || Confers(mapping, values[n], c, a)
  {
    assert values[..n + 1] == values[..n] + [values[n]];
    assert forall v :: v in values[..n + 1] <==> v in values[..n] || v == values[n];
  }

  /** The group found under a contract's key is that contract's: the key identifies it. */
  lemma GroupOfContract(groups: seq<Group>, values: seq<string>, mapping: Rec<MappedScope>, resource: string,
                        mapped: MappedScope)
    requires WellFormedMapping(mapping) && Shaped(groups, resource) && ContractsExact(groups, values, mapping)
    requires mapped.contract.Some? ==> WellFormed(mapped.contract.value)
    ensures var i := FindGroup(groups, ContractKey(mapped.contract));
            (i < |groups| ==> groups[i].entry.contract == mapped.contract) &&
            (i == |groups| ==> !HasEntry(groups, mapped.contract))
  {
    var i := FindGroup(groups, ContractKey(mapped.contract));
    if i < |groups| {
      var c := groups[i].entry.contract;
      assert HasEntry(groups, c);
      var v :| v in values && Covers(mapping, v, c);
      ContractKeyIdentifies(c, mapped.contract);
    }
  }

  lemma AddedShape(groups: seq<Group>, mapped: MappedScope, resource: string)
    requires Shaped(groups, resource)
    requires FindGroup(groups, ContractKey(mapped.contract)) == |groups| ==> !HasEntry(groups, mapped.contract)
    ensures Shaped(AddValue(groups, mapped, resource), resource)
  {
  }

  /** Adding a value leaves an entry for each contract there was one for, and one for its own. */
  lemma {:induction false} AddedEntries(groups: seq<Group>, mapped: MappedScope, resource: string)
    requires var i := FindGroup(groups, ContractKey(mapped.contract));
             i < |groups| ==> groups[i].entry.contract == mapped.contract
    ensures forall c :: HasEntry(AddValue(groups, mapped, resource), c) <==> HasEntry(groups, c) || c == mapped.contract
  {
    var next := AddValue(groups, mapped, resource);
    var i := FindGroup(groups, ContractKey(mapped.contract));
    assert next[i].entry.contract == mapped.contract;
    assert forall k :: 0 <= k < |groups| ==> next[k].entry.contract == groups[k].entry.contract;
    forall c
      ensures HasEntry(next, c) <==> HasEntry(groups, c) || c == mapped.contract
    {
      if HasEntry(groups, c) {
        var k :| 0 <= k < |groups| && groups[k].entry.contract == c;
        assert next[k].entry.contract == c;
      }
    }
  }

  lemma {:induction false} AddedContracts(groups: seq<Group>, values: seq<string>, n: nat, mapping: Rec<MappedScope>,
                                          resource: string)
    requires n < |values| && OwnValue(mapping, values[n]).Some? && ContractsExact(groups, values[..n], mapping)
    requires var i := FindGroup(groups, ContractKey(OwnValue(mapping, values[n]).value.contract));
             i < |groups| ==> groups[i].entry.contract == OwnValue(mapping, values[n]).value.contract
    ensures ContractsExact(AddValue(groups, OwnValue(mapping, values[n]).value, resource), values[..n + 1], mapping)
  {
    var mapped := OwnValue(mapping, values[n]).value;
    var next := AddValue(groups, mapped, resource);
    MoreValues(values, n, mapping);
    AddedEntries(groups, mapped, resource);
    forall c
      ensures HasEntry(next, c) <==> SomeValueCovers(values[..n + 1], mapping, c)
    {
      assert Covers(mapping, values[n], c) <==> c == mapped.contract;
    }
  }

  /** The one entry a value's actions join, and the others as they were. */
  lemma {:induction false} AddedActionsOf(groups: seq<Group>, mapped: MappedScope, resource: string, k: nat, a: string)
    requires var i := FindGroup(groups, ContractKey(mapped.contract));
             i < |groups| ==> groups[i].entry.contract == mapped.contract
    requires k < |AddValue(groups, mapped, resource)|
    ensures var i := FindGroup(groups, ContractKey(mapped.contract));
            var next := AddValue(groups, mapped, resource);
            if k == i then
              next[k].entry.contract == mapped.contract &&
              (a in next[k].entry.actions <==> a in mapped.actions || (i < |groups| && a in groups[i].entry.actions))
            else k < |groups| && next[k] == groups[k]
  {
  }

  lemma {:induction false} AddedActions(groups: seq<Group>, values: seq<string>, n: nat, mapping: Rec<MappedScope>,
                                        resource: string)
    requires n < |values| && OwnValue(mapping, values[n]).Some?
    requires ActionsExact(groups, values[..n], mapping) && ContractsExact(groups, values[..n], mapping) &&
             Shaped(groups, resource)
    requires var c := OwnValue(mapping, values[n]).value.contract;
             var i := FindGroup(groups, ContractKey(c));
             (i < |groups| ==> groups[i].entry.contract == c) && (i == |groups| ==> !HasEntry(groups, c))
    ensures ActionsExact(AddValue(groups, OwnValue(mapping, values[n]).value, resource), values[..n + 1], mapping)
  {
    var mapped := OwnValue(mapping, values[n]).value;
    var next := AddValue(groups, mapped, resource);
    var i := FindGroup(groups, ContractKey(mapped.contract));
    MoreValues(values, n, mapping);
    ConferringCovers(values[..n], mapping, mapped.contract);
    forall k, a | 0 <= k < |next|
      ensures a in next[k].entry.actions <==> SomeValueConfers(values[..n + 1], mapping, next[k].entry.contract, a)
    {
      AddedActionsOf(groups, mapped, resource, k, a);
      var c := next[k].entry.contract;
      assert Confers(mapping, values[n], c, a) <==> c == mapped.contract && a in mapped.actions;
      if k == i {
        assert i < |groups| ==> (a in groups[i].entry.actions <==> SomeValueConfers(values[..n], mapping, c, a));
      } else {
        assert c != mapped.contract by {
          if i < |groups| {
            assert groups[k].entry.contract != groups[i].entry.contract;
          } else {
            assert HasEntry(groups, c);
          }
        }
      }
    }
  }

  lemma ConferringCovers(values: seq<string>, mapping: Rec<MappedScope>, contract: Option<ContractRef>)
    ensures forall a :: SomeValueConfers(values, mapping, contract, a) ==> SomeValueCovers(values, mapping, contract)
  {
    forall a | SomeValueConfers(values, mapping, contract, a)
      ensures SomeValueCovers(values, mapping, contract)
    {
      var v :| v in values && Confers(mapping, v, contract, a);
      assert Covers(mapping, v, contract);
    }
  }

  /** `scope.split(" ")`. */
  function SplitOnSpace(s: string): seq<string> {
    if ' ' !in s then [s]
    else
      var i := FirstSpace(s);
      [s[..i]] + SplitOnSpace(s[i + 1..])
  }

  function FirstSpace(s: string): (i: nat)
    requires ' ' in s
    ensures i < |s| && s[i] == ' ' && ' ' !in s[..i]
  {
    if s[0] == ' ' then 0
    else
      var i := 1 + FirstSpace(s[1..]);
      assert s[..i] == [s[0]] + s[1..][..i - 1];
      i
  }

  function JoinedBySpace(values: seq<string>): string
    requires values != []
  {
    if |values| == 1 then values[0] else values[0] + " " + JoinedBySpace(values[1..])
  }

  /** `values` are what stands between the spaces of `scope`: no value holds one, and joined by one they are `scope`. */
  ghost predicate AreValuesOf(values: seq<string>, scope: string) {
    && values != [] && (forall i :: 0 <= i < |values| ==> ' ' !in values[i])
    && JoinedBySpace(values) == scope
  }

  lemma {:induction false} SplitIsValues(s: string)
    ensures AreValuesOf(SplitOnSpace(s), s)
  {
    if ' ' in s {
      var i := FirstSpace(s);
      SplitIsValues(s[i + 1..]);
      assert s == s[..i] + " " + s[i + 1..];
    }
  }

  /** Up to the first space, or the end, there is one value; the rest is the others'. */
  lemma FirstValue(values: seq<string>, s: string)
    requires AreValuesOf(values, s)
    ensures |values| == 1 ==> ' ' !in s && values[0] == s
    ensures |values| > 1 ==>
              ' ' in s && values[0] == s[..FirstSpace(s)] && AreValuesOf(values[1..], s[FirstSpace(s) + 1..])
  {
    if |values| > 1 {
      var n, rest := |values[0]|, JoinedBySpace(values[1..]);
      assert s[n] == ' ' && s[..n] == values[0] && s[n + 1..] == rest;
      var i := FirstSpace(s);
      assert forall k :: 0 <= k < n ==> s[k] == values[0][k];
      assert forall k :: 0 <= k < i ==> s[k] == s[..i][k];
      assert i == n;
    }
  }

  /** A scope has exactly one list of values. */
  lemma {:induction false} ValuesAreTheSplit(values: seq<string>, s: string)
    ensures AreValuesOf(values, s) <==> values == SplitOnSpace(s)
    decreases |values|
  {
    SplitIsValues(s);
    if AreValuesOf(values, s) {
      FirstValue(values, s);
      if |values| > 1 {
        ValuesAreTheSplit(values[1..], s[FirstSpace(s) + 1..]);
        assert values == [values[0]] + values[1..];
      }
    }
  }

  lemma IssuerMappingWellFormed(doc: Document, issuer: string)
    requires StatesWellFormed(doc.scopes) && OwnValue(doc.scopes, issuer).Some?
    ensures WellFormedMapping(OwnValue(doc.scopes, issuer).value)
  {
    var mapping := OwnValue(doc.scopes, issuer).value;
    var i :| 0 <= i < |doc.scopes| && doc.scopes[i] == (issuer, mapping);
    forall v | OwnValue(mapping, v).Some? && OwnValue(mapping, v).value.contract.Some?
      ensures WellFormed(OwnValue(mapping, v).value.contract.value)
    {
      var j :| 0 <= j < |mapping| && mapping[j] == (v, OwnValue(mapping, v).value);
      assert doc.scopes[i].1[j].1.contract.Some?;
    }
  }

  predicate AnyCovered(values: seq<string>, mapping: Rec<MappedScope>) {
    exists v :: v in values && OwnValue(mapping, v).Some?
  }

  lemma EntriesIffCovered(groups: seq<Group>, values: seq<string>, mapping: Rec<MappedScope>)
    requires ContractsExact(groups, values, mapping)
    ensures groups != [] <==> AnyCovered(values, mapping)
  {
    if groups != [] {
      assert HasEntry(groups, groups[0].entry.contract);
      var v :| v in values && Covers(mapping, v, groups[0].entry.contract);
    } else if AnyCovered(values, mapping) {
      var v :| v in values && OwnValue(mapping, v).Some?;
      assert Covers(mapping, v, OwnValue(mapping, v).value.contract);
      assert SomeValueCovers(values, mapping, OwnValue(mapping, v).value.contract);
    }
  }

  /**
   * The authority a credential's scope confers: nothing unless fresh, at the contract's resource, under a mapped
   * issuer.
   */
  method CredentialAuthority(s: Snapshot, issuer: string, scope: Option<string>, resource: string, now: int)
    returns (groups: Option<seq<Group>>)
    requires Accepted(s.doc)
    ensures groups.Some? ==>
              s.installedAt <= now <= s.installedAt + s.maxStaleMs && resource == s.doc.resource && scope.Some? &&
              OwnValue(s.doc.scopes, issuer).Some?
    ensures s.installedAt <= now <= s.installedAt + s.maxStaleMs && resource == s.doc.resource && scope.Some? &&
            OwnValue(s.doc.scopes, issuer).Some? ==>
              forall values :: AreValuesOf(values, scope.value) ==>
                && (groups.Some? <==> AnyCovered(values, OwnValue(s.doc.scopes, issuer).value))
                && (groups.Some? ==> Grouped(groups.value, values, OwnValue(s.doc.scopes, issuer).value, resource))
    ensures scope.Some? ==> exists values :: AreValuesOf(values, scope.value)
  {
    if scope.Some? {
      SplitIsValues(scope.value);
    }
    if !Fresh(s, now) || resource != s.doc.resource || scope.None? {
      return None;
    }
    var mapping := OwnValue(s.doc.scopes, issuer);
    if mapping.None? {
      return None;
    }
    IssuerMappingWellFormed(s.doc, issuer);
    var entries := ScopeMappingEntries(SplitOnSpace(scope.value), mapping.value, resource);
    EntriesIffCovered(entries, SplitOnSpace(scope.value), mapping.value);
    forall values | AreValuesOf(values, scope.value)
      ensures values == SplitOnSpace(scope.value)
    {
      ValuesAreTheSplit(values, scope.value);
    }
    return if entries == [] then None else Some(entries);
  }
}
