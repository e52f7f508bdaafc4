/** Which documents the strict loader gives: exactly the loadable ones, each written so that it loads back as itself. */
module LoadedDocuments {
  import opened Wrappers
  import opened Json
  import opened ResourceContracts
  import opened MappingContract

  // ---- Loadable documents ----

  predicate IsDated(s: string, env: Env) {
    IsDateTime(s) && env.calendarAccepts(s)
  }

  predicate Named(id: Identity) {
    id.iss != "" && id.id != ""
  }

  /** A scope value's actions are named, and a contract it states is declared for the resource and defines them all. */
  predicate LoadableScope(m: MappedScope, resource: string, contracts: Declarations) {
    && m.actions != [] && (forall i :: 0 <= i < |m.actions| ==> m.actions[i] != "")
    && (m.contract.Some? ==>
          WellFormed(m.contract.value) && ViolationOf(contracts, m.contract.value, resource, m.actions, None).None?)
  }

  predicate LoadableScopes(scopes: seq<(string, Rec<MappedScope>)>, resource: string, contracts: Declarations) {
    forall i, j :: 0 <= i < |scopes| && 0 <= j < |scopes[i].1| ==> LoadableScope(scopes[i].1[j].1, resource, contracts)
  }

  ghost predicate LoadableSubjects(rows: seq<SubjectRow>) {
    DistinctSubjects(rows) && forall i :: 0 <= i < |rows| ==> Named(rows[i].from) && Named(rows[i].to)
  }

  ghost predicate LoadableClients(rows: seq<ClientRow>) {
    DistinctClients(rows) && forall i :: 0 <= i < |rows| ==> Named(rows[i].from) && rows[i].to != ""
  }

  /** Everything the loader demands of a document. */
  ghost predicate Loadable(doc: Document, env: Env) {
    && doc.contractId != "" && doc.version >= 1 && IsDated(doc.issuedAt, env) && doc.missionIssuer != ""
    && doc.provenance.source != "" && doc.provenance.exportId != "" && IsDated(doc.provenance.exportedAt, env)
    && LoadableSubjects(doc.subjects) && LoadableClients(doc.clients)
    && doc.resource != "" && LoadableScopes(doc.scopes, doc.resource, env.contracts)
  }

  // ---- What a JSON value states ----

  /** An object with no member beside `names`. */
  ghost predicate HoldsOnly(v: Json, names: seq<string>) {
    v.Obj? && forall i :: 0 <= i < |v.members| ==> v.members[i].0 in names
  }

  ghost predicate StatesIdentity(v: Json, idName: string, id: Identity) {
    HoldsOnly(v, ["iss", idName]) && Stated(v, "iss") == Str(id.iss) && Stated(v, idName) == Str(id.id)
  }

  ghost predicate StatesStatus(v: Json, active: bool) {
    v == Str(if active then "active" else "disabled")
  }

  ghost predicate StatesSubject(v: Json, row: SubjectRow) {
    && HoldsOnly(v, ["from", "to", "status"])
    && StatesIdentity(Stated(v, "from"), "sub", row.from) && StatesIdentity(Stated(v, "to"), "sub", row.to)
    && StatesStatus(Stated(v, "status"), row.active)
  }

  ghost predicate StatesClient(v: Json, row: ClientRow) {
    && HoldsOnly(v, ["from", "to", "status"])
    && StatesIdentity(Stated(v, "from"), "client_id", row.from) && Stated(v, "to") == Str(row.to)
    && StatesStatus(Stated(v, "status"), row.active)
  }

  ghost predicate StatesSubjects(v: Json, rows: seq<SubjectRow>) {
    v.Arr? && |v.items| == |rows| && forall i :: 0 <= i < |rows| ==> StatesSubject(v.items[i], rows[i])
  }

  ghost predicate StatesClients(v: Json, rows: seq<ClientRow>) {
    v.Arr? && |v.items| == |rows| && forall i :: 0 <= i < |rows| ==> StatesClient(v.items[i], rows[i])
  }

  ghost predicate StatesTexts(v: Json, texts: seq<string>) {
    v.Arr? && |v.items| == |texts| && forall i :: 0 <= i < |texts| ==> v.items[i] == Str(texts[i])
  }

  /** An action list, or an object of a list and a reference. */
  ghost predicate StatesScope(v: Json, m: MappedScope) {
    if m.contract.None? then StatesTexts(v, m.actions)
    else
      && HoldsOnly(v, ["actions", "resource_contract"])
      && StatesTexts(Stated(v, "actions"), m.actions) && States(Stated(v, "resource_contract"), m.contract.value)
  }

  ghost predicate StatesScopes(v: Json, values: Rec<MappedScope>) {
    v.Obj? && |v.members| == |values| && forall j :: 0 <= j < |values| ==>
      v.members[j].0 == values[j].0 && StatesScope(v.members[j].1, values[j].1)
  }

  ghost predicate StatesIssuers(v: Json, scopes: Rec<Rec<MappedScope>>) {
    v.Obj? && |v.members| == |scopes| && forall i :: 0 <= i < |scopes| ==>
      v.members[i].0 == scopes[i].0 && StatesScopes(v.members[i].1, scopes[i].1)
  }

  ghost predicate StatesMapping(v: Json, resource: string, scopes: Rec<Rec<MappedScope>>) {
    HoldsOnly(v, ["resource", "issuers"]) && Stated(v, "resource") == Str(resource) &&
    StatesIssuers(Stated(v, "issuers"), scopes)
  }

  ghost predicate StatesDepth(v: Json, depth: nat) {
    HoldsOnly(v, ["max_depth"]) && Stated(v, "max_depth") == Num(depth as real)
  }

  ghost predicate StatesDelegates(v: Json, delegates: Rec<nat>) {
    v.Obj? && |v.members| == |delegates| && forall i :: 0 <= i < |delegates| ==>
      v.members[i].0 == delegates[i].0 && StatesDepth(v.members[i].1, delegates[i].1)
  }

  ghost predicate StatesProvenance(v: Json, p: Provenance) {
    && HoldsOnly(v, ["source", "export_id", "exported_at"])
    && Stated(v, "source") == Str(p.source) && Stated(v, "export_id") == Str(p.exportId)
    && Stated(v, "exported_at") == Str(p.exportedAt)
  }

  /** Client-instance identity is neither supported nor required. */
  ghost predicate StatesNoInstance(v: Json) {
    HoldsOnly(v, ["supported", "required"]) && Stated(v, "supported") == Bool(false) &&
    Stated(v, "required") == Bool(false)
  }

  /** `raw` states `doc`, member by member. */
  ghost predicate StatesDocument(raw: Json, doc: Document) {
    && HoldsOnly(raw, TOP_LEVEL)
    && Stated(raw, "contract_id") == Str(doc.contractId) && Stated(raw, "version") == Num(doc.version as real)
    && Stated(raw, "issued_at") == Str(doc.issuedAt) && StatesProvenance(Stated(raw, "provenance"), doc.provenance)
    && Stated(raw, "mission_issuer") == Str(doc.missionIssuer)
    && StatesSubjects(Stated(raw, "subjects"), doc.subjects) && StatesClients(Stated(raw, "clients"), doc.clients)
    && StatesMapping(Stated(raw, "scopes"), doc.resource, doc.scopes)
    && StatesDelegates(Stated(raw, "delegates"), doc.delegates)
    && StatesNoInstance(Stated(raw, "instance")) && Stated(raw, "failure") == Str("mission_binding_failed")
  }

  // ---- Each part loads exactly what its value states ----

  /** An object of exactly `names`, where none of those it holds reads as null. */
  lemma {:induction false} ObjectExactly(v: Json, at: Place, names: seq<string>)
    requires forall k :: 0 <= k < |names| ==> Stated(v, names[k]) != Null
    ensures ObjectOf(v, at, names).Ok? <==> HoldsOnly(v, names)
  {
    forall k | v.Obj? && 0 <= k < |names|
      ensures HasKey(v.members, names[k])
    {
    }
  }

  lemma {:induction false} IdentityExactly(v: Json, at: Place, idName: string, id: Identity)
    ensures (var o := ObjectOf(v, at, ["iss", idName]);
             o.Ok? && IdentityIn(Get(o.value, "iss"), Get(o.value, idName), at, idName) == Ok(id)) <==>
            StatesIdentity(v, idName, id) && Named(id)
  {
    if StatesIdentity(v, idName, id) {
      ObjectExactly(v, at, ["iss", idName]);
    }
  }

  lemma {:induction false} StatusExactly(v: Json, at: Place, active: bool)
    ensures Status(v, at) == Ok(active) <==> StatesStatus(v, active)
  {
    assert |"active"| == 6 && |"disabled"| == 8;
  }

  lemma {:induction false} SubjectInExactly(from: Json, to: Json, status: Json, at: Place, row: SubjectRow)
    ensures SubjectIn(from, to, status, at) == Ok(row) <==>
            && StatesIdentity(from, "sub", row.from) && StatesIdentity(to, "sub", row.to)
            && StatesStatus(status, row.active) && Named(row.from) && Named(row.to)
  {
    IdentityExactly(from, at + [Member("from")], "sub", row.from);
    IdentityExactly(to, at + [Member("to")], "sub", row.to);
    StatusExactly(status, at + [Member("status")], row.active);
  }

  lemma {:induction false} ClientInExactly(from: Json, to: Json, status: Json, at: Place, row: ClientRow)
    ensures ClientIn(from, to, status, at) == Ok(row) <==>
            && StatesIdentity(from, "client_id", row.from) && to == Str(row.to) && StatesStatus(status, row.active)
            && Named(row.from) && row.to != ""
  {
    IdentityExactly(from, at + [Member("from")], "client_id", row.from);
    StatusExactly(status, at + [Member("status")], row.active);
  }

  ghost predicate HoldsRow(v: Json) {
    && HoldsOnly(v, ["from", "to", "status"])
    && Stated(v, "from") != Null && Stated(v, "to") != Null && Stated(v, "status") != Null
  }

  lemma {:induction false} RowObject(v: Json, at: Place)
    ensures var row := ObjectOf(v, at, ["from", "to", "status"]);
            && (HoldsRow(v) ==> row.Ok?)
            && (row.Ok? ==>
                  && HoldsOnly(v, ["from", "to", "status"]) && Get(row.value, "from") == Stated(v, "from")
                  && Get(row.value, "to") == Stated(v, "to") && Get(row.value, "status") == Stated(v, "status"))
  {
    if HoldsRow(v) {
      ObjectExactly(v, at, ["from", "to", "status"]);
    }
  }

  lemma {:induction false} SubjectExactly(v: Json, at: Place, row: SubjectRow)
    ensures ParseSubjectRow(v, at) == Ok(row) <==> StatesSubject(v, row) && Named(row.from) && Named(row.to)
  {
    SubjectInExactly(Stated(v, "from"), Stated(v, "to"), Stated(v, "status"), at, row);
    RowObject(v, at);
  }

  lemma {:induction false} ClientExactly(v: Json, at: Place, row: ClientRow)
    ensures ParseClientRow(v, at) == Ok(row) <==> StatesClient(v, row) && Named(row.from) && row.to != ""
  {
    ClientInExactly(Stated(v, "from"), Stated(v, "to"), Stated(v, "status"), at, row);
    RowObject(v, at);
  }

  /** Rows load as `out` exactly when each does and no two name one identity. */
  lemma {:induction false} RowsExactly<R(!new)>(rows: seq<Json>, at: Place, parse: (Json, Place) -> Result<R, Fault>,
                                                from: R -> Identity, out: seq<R>)
    ensures ParseRows(rows, at, parse, from) == Ok(out) <==>
            && |rows| == |out| && (forall i :: 0 <= i < |rows| ==> parse(rows[i], at + [Index(i)]) == Ok(out[i]))
            && forall i, j :: 0 <= i < j < |out| ==> from(out[i]) != from(out[j])
  {
    if ParseRows(rows, at, parse, from).Ok? {
      RowsLoaded(rows, at, parse, from);
      assert |rows| == |out| && (forall i :: 0 <= i < |rows| ==> parse(rows[i], at + [Index(i)]) == Ok(out[i])) ==>
             ParseRows(rows, at, parse, from).value == out;
    } else if |rows| == |out| && (forall i :: 0 <= i < |rows| ==> parse(rows[i], at + [Index(i)]) == Ok(out[i])) {
      RowsLoadIffUnambiguous(rows, at, parse, from);
    }
  }

  lemma {:induction false} SubjectsExactly(v: Json, rows: seq<SubjectRow>)
    ensures ParseSubjects(v) == Ok(rows) <==> StatesSubjects(v, rows) && LoadableSubjects(rows)
  {
    if v.Arr? {
      RowsExactly(v.items, SubjectsAt, ParseSubjectRow, (row: SubjectRow) => row.from, rows);
      forall i | 0 <= i < |v.items| == |rows|
        ensures ParseSubjectRow(v.items[i], SubjectsAt + [Index(i)]) == Ok(rows[i]) <==>
                StatesSubject(v.items[i], rows[i]) && Named(rows[i].from) && Named(rows[i].to)
      {
        SubjectExactly(v.items[i], SubjectsAt + [Index(i)], rows[i]);
      }
    }
  }

  lemma {:induction false} ClientsExactly(v: Json, rows: seq<ClientRow>)
    ensures ParseClients(v) == Ok(rows) <==> StatesClients(v, rows) && LoadableClients(rows)
  {
    if v.Arr? {
      RowsExactly(v.items, ClientsAt, ParseClientRow, (row: ClientRow) => row.from, rows);
      forall i | 0 <= i < |v.items| == |rows|
        ensures ParseClientRow(v.items[i], ClientsAt + [Index(i)]) == Ok(rows[i]) <==>
                StatesClient(v.items[i], rows[i]) && Named(rows[i].from) && rows[i].to != ""
      {
        ClientExactly(v.items[i], ClientsAt + [Index(i)], rows[i]);
      }
    }
  }

  /** A record's members load as `out` exactly when each does, key by key. */
  lemma {:induction false} MembersExactly<A(!new)>(r: Rec<Json>, at: Place, parse: (Json, Place) -> Result<A, Fault>,
                                                   out: Rec<A>)
    ensures ParseMembers(r, at, parse) == Ok(out) <==>
            |r| == |out| && forall i :: 0 <= i < |r| ==>
              r[i].0 == out[i].0 && parse(r[i].1, at + [Member(r[i].0)]) == Ok(out[i].1)
  {
    if |r| == |out| && forall i :: 0 <= i < |r| ==>
         r[i].0 == out[i].0 && parse(r[i].1, at + [Member(r[i].0)]) == Ok(out[i].1) {
      EachMemberLoads(r, at, parse, out);
    }
  }

  lemma {:induction false} EachMemberLoads<A>(r: Rec<Json>, at: Place, parse: (Json, Place) -> Result<A, Fault>,
                                              out: Rec<A>)
    requires |r| == |out| && forall i :: 0 <= i < |r| ==>
             r[i].0 == out[i].0 && parse(r[i].1, at + [Member(r[i].0)]) == Ok(out[i].1)
    ensures ParseMembers(r, at, parse) == Ok(out)
  {
    if r != [] {
      var n := |r| - 1;
      EachMemberLoads(r[..n], at, parse, out[..n]);
      assert out == out[..n] + [out[n]];
    }
  }

  lemma {:induction false} ActionsExactly(v: Json, at: Place, actions: seq<string>)
    ensures ActionsOf(v, at) == Ok(actions) <==>
            StatesTexts(v, actions) && actions != [] && forall i :: 0 <= i < |actions| ==> actions[i] != ""
  {
    if ActionsOf(v, at).Ok? {
      assert StatesTexts(v, actions) ==> ActionsOf(v, at).value == actions;
    }
  }

  lemma {:induction false} ListScopeExactly(v: Json, at: Place, resource: string, contracts: Declarations,
                                            m: MappedScope)
    requires v.Arr?
    ensures ParseScopeValue(v, at, resource, contracts) == Ok(m) <==>
            StatesScope(v, m) && LoadableScope(m, resource, contracts)
  {
    ActionsExactly(v, at, m.actions);
  }

  lemma {:induction false} ObjectScopeExactly(v: Json, at: Place, resource: string, contracts: Declarations,
                                              m: MappedScope)
    requires v.Obj?
    ensures ParseScopeValue(v, at, resource, contracts) == Ok(m) <==>
            StatesScope(v, m) && LoadableScope(m, resource, contracts)
  {
    ActionsExactly(Stated(v, "actions"), at + [Member("actions")], m.actions);
    StatedContract(v, m);
  }

  /** A scope value's contract is stated as a reference reads. */
  lemma {:induction false} StatedContract(v: Json, m: MappedScope)
    requires v.Obj?
    ensures m.contract.Some? ==>
              (States(Stated(v, "resource_contract"), m.contract.value) <==>
               OwnValue(v.members, "resource_contract").Some? &&
               RefOf(OwnValue(v.members, "resource_contract").value) == m.contract)
  {
  }

  lemma {:induction false} ScopeExactly(v: Json, at: Place, resource: string, contracts: Declarations, m: MappedScope)
    ensures ParseScopeValue(v, at, resource, contracts) == Ok(m) <==>
            StatesScope(v, m) && LoadableScope(m, resource, contracts)
  {
    if v.Arr? {
      ListScopeExactly(v, at, resource, contracts, m);
    } else if v.Obj? {
      ObjectScopeExactly(v, at, resource, contracts, m);
    }
  }

  lemma {:induction false} ScopesExactly(v: Json, at: Place, resource: string, contracts: Declarations,
                                         values: Rec<MappedScope>)
    ensures ParseScopeValues(v, at, resource, contracts) == Ok(values) <==>
            StatesScopes(v, values) && forall j :: 0 <= j < |values| ==>
              LoadableScope(values[j].1, resource, contracts)
  {
    if v.Obj? {
      var parse := (value, place) => ParseScopeValue(value, place, resource, contracts);
      MembersExactly(v.members, at, parse, values);
      forall j | 0 <= j < |v.members| == |values|
        ensures parse(v.members[j].1, at + [Member(v.members[j].0)]) == Ok(values[j].1) <==>
                StatesScope(v.members[j].1, values[j].1) && LoadableScope(values[j].1, resource, contracts)
      {
        ScopeExactly(v.members[j].1, at + [Member(v.members[j].0)], resource, contracts, values[j].1);
      }
    }
  }

  lemma {:induction false} IssuersExactly(v: Json, resource: string, contracts: Declarations,
                                          scopes: Rec<Rec<MappedScope>>)
    requires v.Obj?
    ensures var parse := (value, place) => ParseScopeValues(value, place, resource, contracts);
            ParseMembers(v.members, IssuersAt, parse) == Ok(scopes) <==>
            StatesIssuers(v, scopes) && LoadableScopes(scopes, resource, contracts)
  {
    var parse := (value, place) => ParseScopeValues(value, place, resource, contracts);
    MembersExactly(v.members, IssuersAt, parse, scopes);
    forall i | 0 <= i < |v.members| == |scopes|
      ensures parse(v.members[i].1, IssuersAt + [Member(v.members[i].0)]) == Ok(scopes[i].1) <==>
              StatesScopes(v.members[i].1, scopes[i].1) &&
              forall j :: 0 <= j < |scopes[i].1| ==> LoadableScope(scopes[i].1[j].1, resource, contracts)
    {
      ScopesExactly(v.members[i].1, IssuersAt + [Member(v.members[i].0)], resource, contracts, scopes[i].1);
    }
  }

  lemma {:induction false} MappingExactly(v: Json, contracts: Declarations, resource: string,
                                          scopes: Rec<Rec<MappedScope>>)
    ensures ParseScopes(v, contracts) == Ok((resource, scopes)) <==>
            StatesMapping(v, resource, scopes) && resource != "" && LoadableScopes(scopes, resource, contracts)
  {
    if StatesMapping(v, resource, scopes) {
      ObjectExactly(v, [Member("scopes")], ["resource", "issuers"]);
    }
    if Stated(v, "issuers").Obj? {
      IssuersExactly(Stated(v, "issuers"), resource, contracts, scopes);
    }
  }

  lemma {:induction false} DepthExactly(v: Json, at: Place, depth: nat)
    ensures ParseDelegate(v, at) == Ok(depth) <==> StatesDepth(v, depth)
  {
    assert (depth as real).Floor == depth;
    if StatesDepth(v, depth) {
      ObjectExactly(v, at, ["max_depth"]);
    }
  }

  lemma {:induction false} DelegatesExactly(v: Json, delegates: Rec<nat>)
    requires v.Obj?
    ensures ParseMembers(v.members, [Member("delegates")], ParseDelegate) == Ok(delegates) <==>
            StatesDelegates(v, delegates)
  {
    MembersExactly(v.members, [Member("delegates")], ParseDelegate, delegates);
    forall i | 0 <= i < |v.members| == |delegates|
      ensures var at := [Member("delegates")] + [Member(v.members[i].0)];
              ParseDelegate(v.members[i].1, at) == Ok(delegates[i].1) <==>
              StatesDepth(v.members[i].1, delegates[i].1)
    {
      DepthExactly(v.members[i].1, [Member("delegates")] + [Member(v.members[i].0)], delegates[i].1);
    }
  }

  predicate NoInstance(v: Json) {
    var flags := ObjectOf(v, [Member("instance")], ["supported", "required"]);
    flags.Ok? && Get(flags.value, "supported") == Bool(false) && Get(flags.value, "required") == Bool(false)
  }

  lemma {:induction false} InstanceExactly(v: Json)
    ensures NoInstance(v) <==> StatesNoInstance(v)
  {
    if StatesNoInstance(v) {
      ObjectExactly(v, [Member("instance")], ["supported", "required"]);
    }
  }

  /** The texts read last, apart from the objects that hold them. */
  ghost predicate StatesTail(contractId: Json, issuedAt: Json, provenance: Json, tail: Tail) {
    && contractId == Str(tail.contractId) && issuedAt == Str(tail.issuedAt)
    && StatesProvenance(provenance, tail.provenance)
  }

  ghost predicate LoadableTail(tail: Tail, env: Env) {
    && tail.contractId != "" && IsDated(tail.issuedAt, env)
    && tail.provenance.source != "" && tail.provenance.exportId != "" && IsDated(tail.provenance.exportedAt, env)
  }

  lemma {:induction false} InstantExactly(v: Json, at: Place, env: Env, s: string)
    ensures Instant(v, at, env) == Ok(s) <==> v == Str(s) && IsDated(s, env)
  {
  }

  lemma {:induction false} ProvenanceExactly(v: Json, env: Env, p: Provenance)
    requires HoldsOnly(v, ["source", "export_id", "exported_at"])
    ensures ParseProvenance(v.members, env) == Ok(p) <==>
            StatesProvenance(v, p) && p.source != "" && p.exportId != "" && IsDated(p.exportedAt, env)
  {
    InstantExactly(Stated(v, "exported_at"), [Member("provenance"), Member("exported_at")], env, p.exportedAt);
  }

  lemma {:induction false} TextsExactly(depths: Rec<nat>, contractId: Json, issuedAt: Json, provenance: Json, env: Env,
                                        tail: Tail)
    requires HoldsOnly(provenance, ["source", "export_id", "exported_at"])
    ensures ParseTexts(depths, contractId, issuedAt, provenance.members, env) == Ok(tail) <==>
            depths == tail.delegates && StatesTail(contractId, issuedAt, provenance, tail) && LoadableTail(tail, env)
  {
    InstantExactly(issuedAt, [Member("issued_at")], env, tail.issuedAt);
    ProvenanceExactly(provenance, env, tail.provenance);
  }

  lemma {:induction false} TailSteps(delegates: Json, instance: Json, failure: Json, contractId: Json, issuedAt: Json,
                                     provenance: Rec<Json>, env: Env, tail: Tail)
    ensures ParseTail(delegates, instance, failure, contractId, issuedAt, provenance, env) == Ok(tail) <==>
            && delegates.Obj?
            && ParseMembers(delegates.members, [Member("delegates")], ParseDelegate) == Ok(tail.delegates)
            && NoInstance(instance) && failure == Str("mission_binding_failed")
            && ParseTexts(tail.delegates, contractId, issuedAt, provenance, env) == Ok(tail)
  {
  }

  lemma {:induction false} TailExactly(delegates: Json, instance: Json, failure: Json, contractId: Json,
                                       issuedAt: Json, provenance: Json, env: Env, tail: Tail)
    requires HoldsOnly(provenance, ["source", "export_id", "exported_at"])
    ensures ParseTail(delegates, instance, failure, contractId, issuedAt, provenance.members, env) == Ok(tail) <==>
            && StatesDelegates(delegates, tail.delegates) && StatesNoInstance(instance)
            && failure == Str("mission_binding_failed") && StatesTail(contractId, issuedAt, provenance, tail)
            && LoadableTail(tail, env)
  {
    TailSteps(delegates, instance, failure, contractId, issuedAt, provenance.members, env, tail);
    InstanceExactly(instance);
    TextsExactly(tail.delegates, contractId, issuedAt, provenance, env, tail);
    if delegates.Obj? {
      DelegatesExactly(delegates, tail.delegates);
    }
  }

  lemma {:induction false} RemainderExactly(root: Root, env: Env, rest: Remainder)
    requires HoldsOnly(root.provenance, ["source", "export_id", "exported_at"])
    ensures ParseRemainder(root, root.provenance.members, env) == Ok(rest) <==>
            && StatesClients(root.clients, rest.clients) && LoadableClients(rest.clients)
            && StatesMapping(root.scopes, rest.resource, rest.scopes) && rest.resource != ""
            && LoadableScopes(rest.scopes, rest.resource, env.contracts)
            && StatesDelegates(root.delegates, rest.tail.delegates) && StatesNoInstance(root.instance)
            && root.failure == Str("mission_binding_failed")
            && StatesTail(root.contractId, root.issuedAt, root.provenance, rest.tail) && LoadableTail(rest.tail, env)
  {
    ClientsExactly(root.clients, rest.clients);
    MappingExactly(root.scopes, env.contracts, rest.resource, rest.scopes);
    TailExactly(root.delegates, root.instance, root.failure, root.contractId, root.issuedAt, root.provenance, env,
                rest.tail);
  }

  /** A document's part after its subjects. */
  function RemainderOf(doc: Document): Remainder {
    Remainder(doc.clients, doc.resource, doc.scopes,
              Tail(doc.delegates, doc.contractId, doc.issuedAt, doc.provenance))
  }

  lemma {:induction false} AssembledExactly(version: nat, missionIssuer: Result<string, Fault>,
                                            subjects: Result<seq<SubjectRow>, Fault>,
                                            remainder: Result<Remainder, Fault>, doc: Document)
    ensures Assembled(version, missionIssuer, subjects, remainder) == Ok(doc) <==>
            && version == doc.version && missionIssuer == Ok(doc.missionIssuer) && subjects == Ok(doc.subjects)
            && remainder == Ok(RemainderOf(doc))
  {
  }

  lemma {:induction false} VersionExactly(v: Json, least: nat, at: Place, n: nat)
    ensures IntegerAtLeast(v, least, at) == Ok(n) <==> v == Num(n as real) && n >= least
  {
    assert (n as real).Floor == n;
  }

  /** The eleven members state `doc`. */
  ghost predicate StatesRoot(root: Root, doc: Document) {
    && root.contractId == Str(doc.contractId) && root.version == Num(doc.version as real)
    && root.issuedAt == Str(doc.issuedAt) && StatesProvenance(root.provenance, doc.provenance)
    && root.missionIssuer == Str(doc.missionIssuer)
    && StatesSubjects(root.subjects, doc.subjects) && StatesClients(root.clients, doc.clients)
    && StatesMapping(root.scopes, doc.resource, doc.scopes) && StatesDelegates(root.delegates, doc.delegates)
    && StatesNoInstance(root.instance) && root.failure == Str("mission_binding_failed")
  }

  lemma {:induction false} RootExactly(root: Root, env: Env, doc: Document)
    ensures ParseRoot(root, env) == Ok(doc) <==> StatesRoot(root, doc) && Loadable(doc, env)
  {
    VersionExactly(root.version, 1, [Member("version")], doc.version);
    SubjectsExactly(root.subjects, doc.subjects);
    var names := ["source", "export_id", "exported_at"];
    var provenance := ObjectOf(root.provenance, [Member("provenance")], names);
    if StatesProvenance(root.provenance, doc.provenance) {
      ObjectExactly(root.provenance, [Member("provenance")], names);
    }
    if provenance.Ok? && IntegerAtLeast(root.version, 1, [Member("version")]).Ok? {
      RemainderExactly(root, env, RemainderOf(doc));
      AssembledExactly(IntegerAtLeast(root.version, 1, [Member("version")]).value,
                       Text(root.missionIssuer, [Member("mission_issuer")]), ParseSubjects(root.subjects),
                       ParseRemainder(root, provenance.value, env), doc);
    }
  }

  lemma {:induction false} TopLevelNames()
    ensures |TOP_LEVEL| == 11
    ensures TOP_LEVEL[0] == "contract_id" && TOP_LEVEL[1] == "version" && TOP_LEVEL[2] == "issued_at"
    ensures TOP_LEVEL[3] == "provenance" && TOP_LEVEL[4] == "mission_issuer" && TOP_LEVEL[5] == "subjects"
    ensures TOP_LEVEL[6] == "clients" && TOP_LEVEL[7] == "scopes" && TOP_LEVEL[8] == "delegates"
    ensures TOP_LEVEL[9] == "instance" && TOP_LEVEL[10] == "failure"
  {
  }

  lemma {:induction false} RootStated(raw: Json, doc: Document)
    requires raw.Obj?
    ensures StatesDocument(raw, doc) <==> HoldsOnly(raw, TOP_LEVEL) && StatesRoot(ReadRoot(raw.members), doc)
  {
  }

  /** The members in the order of their names. */
  function RootValues(root: Root): (values: seq<Json>)
    ensures |values| == 11
  {
    [root.contractId, root.version, root.issuedAt, root.provenance, root.missionIssuer, root.subjects, root.clients,
     root.scopes, root.delegates, root.instance, root.failure]
  }

  lemma {:induction false} RootReads(o: Rec<Json>, k: nat)
    requires k < 11
    ensures |TOP_LEVEL| == 11 && Get(o, TOP_LEVEL[k]) == RootValues(ReadRoot(o))[k]
  {
    TopLevelNames();
  }

  ghost predicate HoldsElevenKinds(root: Root) {
    && root.contractId.Str? && root.version.Num? && root.issuedAt.Str? && root.provenance.Obj?
    && root.missionIssuer.Str? && root.subjects.Arr? && root.clients.Arr? && root.scopes.Obj?
    && root.delegates.Obj? && root.instance.Obj? && root.failure.Str?
  }

  lemma {:induction false} StatedKinds(root: Root, doc: Document)
    requires StatesRoot(root, doc)
    ensures HoldsElevenKinds(root)
  {
  }

  lemma {:induction false} RootNotNull(root: Root, k: nat)
    requires HoldsElevenKinds(root) && k < 11
    ensures RootValues(root)[k] != Null
  {
  }

  lemma {:induction false} TopLevelStated(raw: Json, doc: Document)
    requires raw.Obj? && HoldsOnly(raw, TOP_LEVEL) && StatesRoot(ReadRoot(raw.members), doc)
    ensures ObjectOf(raw, [], TOP_LEVEL) == Ok(raw.members)
  {
    TopLevelNames();
    StatedKinds(ReadRoot(raw.members), doc);
    forall k | 0 <= k < |TOP_LEVEL|
      ensures Stated(raw, TOP_LEVEL[k]) != Null
    {
      RootReads(raw.members, k);
      RootNotNull(ReadRoot(raw.members), k);
    }
    ObjectExactly(raw, [], TOP_LEVEL);
  }

  /** The strict loader gives `doc` exactly where the value states it and it meets every demand. */
  lemma {:induction false} ParsedExactly(raw: Json, env: Env, doc: Document)
    ensures Parse(raw, env) == Ok(doc) <==> StatesDocument(raw, doc) && Loadable(doc, env)
  {
    if raw.Obj? {
      RootStated(raw, doc);
      RootExactly(ReadRoot(raw.members), env, doc);
      if HoldsOnly(raw, TOP_LEVEL) && StatesRoot(ReadRoot(raw.members), doc) {
        TopLevelStated(raw, doc);
      }
    }
  }

  // ---- Writing a document ----

  /** An object with the members `names`, in that order. */
  function RecordOf(names: seq<string>, values: seq<Json>): (r: Rec<Json>)
    requires |names| == |values| && Distinct(names)
    ensures |r| == |names| && forall i :: 0 <= i < |names| ==> r[i] == (names[i], values[i])
  {
    var r := seq(|names|, i requires 0 <= i < |names| => (names[i], values[i]));
    assert DistinctKeys(r);
    r
  }

  lemma {:induction false} RecordStates(names: seq<string>, values: seq<Json>)
    requires |names| == |values| && Distinct(names)
    ensures HoldsOnly(Obj(RecordOf(names, values)), names)
    ensures forall i :: 0 <= i < |names| ==> Stated(Obj(RecordOf(names, values)), names[i]) == values[i]
  {
    var r := RecordOf(names, values);
    forall i | 0 <= i < |names|
      ensures Stated(Obj(r), names[i]) == values[i]
    {
      assert r[i].0 == names[i];
      OwnValueAt(r, i);
    }
  }

  const SUBJECT_NAMES: seq<string> := ["iss", "sub"]
  const CLIENT_NAMES: seq<string> := ["iss", "client_id"]
  const ROW_NAMES: seq<string> := ["from", "to", "status"]
  const PROVENANCE_NAMES: seq<string> := ["source", "export_id", "exported_at"]
  const SCOPES_NAMES: seq<string> := ["resource", "issuers"]
  const VALUE_NAMES: seq<string> := ["actions", "resource_contract"]
  const DEPTH_NAMES: seq<string> := ["max_depth"]
  const INSTANCE_NAMES: seq<string> := ["supported", "required"]

  lemma {:induction false} NamesAreDistinct()
    ensures Distinct(SUBJECT_NAMES) && Distinct(CLIENT_NAMES) && Distinct(ROW_NAMES) && Distinct(PROVENANCE_NAMES)
    ensures Distinct(SCOPES_NAMES) && Distinct(VALUE_NAMES) && Distinct(DEPTH_NAMES) && Distinct(INSTANCE_NAMES)
    ensures Distinct(REFERENCE_MEMBERS)
  {
    assert |"iss"| == 3 && |"sub"| == 3 && "iss"[0] != "sub"[0] && |"client_id"| == 9;
    assert |"from"| == 4 && |"to"| == 2 && |"status"| == 6;
    assert |"source"| == 6 && |"export_id"| == 9 && |"exported_at"| == 11;
    assert |"resource"| == 8 && |"issuers"| == 7 && |"actions"| == 7 && |"resource_contract"| == 17;
    assert |"supported"| == 9 && |"required"| == 8;
    assert |"id"| == 2 && |"version"| == 7 && |"digest"| == 6;
  }

  lemma {:induction false} TopLevelIsDistinct()
    ensures Distinct(TOP_LEVEL)
  {
    assert |"contract_id"| == 11 && |"version"| == 7 && |"issued_at"| == 9 && |"provenance"| == 10;
    assert |"mission_issuer"| == 14 && |"subjects"| == 8 && |"clients"| == 7 && |"scopes"| == 6;
    assert |"delegates"| == 9 && |"instance"| == 8 && |"failure"| == 7;
    assert "version"[0] == 'v' && "clients"[0] == 'c' && "failure"[0] == 'f';
    assert "issued_at"[0] == 'i' && "delegates"[0] == 'd' && "subjects"[0] == 's' && "instance"[0] == 'i';
  }

  function WrittenStatus(active: bool): Json {
    Str(if active then "active" else "disabled")
  }

  function WrittenSubject(row: SubjectRow): Json {
    NamesAreDistinct();
    Obj(RecordOf(ROW_NAMES, [Obj(RecordOf(SUBJECT_NAMES, [Str(row.from.iss), Str(row.from.id)])),
                             Obj(RecordOf(SUBJECT_NAMES, [Str(row.to.iss), Str(row.to.id)])),
                                 WrittenStatus(row.active)]))
  }

  function WrittenClient(row: ClientRow): Json {
    NamesAreDistinct();
    Obj(RecordOf(ROW_NAMES, [Obj(RecordOf(CLIENT_NAMES, [Str(row.from.iss), Str(row.from.id)])), Str(row.to),
                             WrittenStatus(row.active)]))
  }

  lemma {:induction false} SubjectIdentityWritten(id: Identity)
    requires Distinct(SUBJECT_NAMES)
    ensures StatesIdentity(Obj(RecordOf(SUBJECT_NAMES, [Str(id.iss), Str(id.id)])), "sub", id)
  {
    RecordStates(SUBJECT_NAMES, [Str(id.iss), Str(id.id)]);
    assert SUBJECT_NAMES[0] == "iss" && SUBJECT_NAMES[1] == "sub";
  }

  lemma {:induction false} ClientIdentityWritten(id: Identity)
    requires Distinct(CLIENT_NAMES)
    ensures StatesIdentity(Obj(RecordOf(CLIENT_NAMES, [Str(id.iss), Str(id.id)])), "client_id", id)
  {
    RecordStates(CLIENT_NAMES, [Str(id.iss), Str(id.id)]);
    assert CLIENT_NAMES[0] == "iss" && CLIENT_NAMES[1] == "client_id";
  }

  lemma {:induction false} RowStates(from: Json, to: Json, status: Json)
    requires Distinct(ROW_NAMES)
    ensures var v := Obj(RecordOf(ROW_NAMES, [from, to, status]));
            && HoldsOnly(v, ["from", "to", "status"])
            && Stated(v, "from") == from && Stated(v, "to") == to && Stated(v, "status") == status
  {
    RecordStates(ROW_NAMES, [from, to, status]);
    assert ROW_NAMES[0] == "from" && ROW_NAMES[1] == "to" && ROW_NAMES[2] == "status";
  }

  lemma {:induction false} SubjectWritten(row: SubjectRow)
    ensures StatesSubject(WrittenSubject(row), row)
  {
    NamesAreDistinct();
    SubjectIdentityWritten(row.from);
    SubjectIdentityWritten(row.to);
    RowStates(Obj(RecordOf(SUBJECT_NAMES, [Str(row.from.iss), Str(row.from.id)])),
              Obj(RecordOf(SUBJECT_NAMES, [Str(row.to.iss), Str(row.to.id)])), WrittenStatus(row.active));
  }

  lemma {:induction false} ClientWritten(row: ClientRow)
    ensures StatesClient(WrittenClient(row), row)
  {
    NamesAreDistinct();
    ClientIdentityWritten(row.from);
    RowStates(Obj(RecordOf(CLIENT_NAMES, [Str(row.from.iss), Str(row.from.id)])), Str(row.to),
              WrittenStatus(row.active));
  }

  /** Each member of a record written under its own key. */
  function WrittenMembers<A>(r: Rec<A>, write: A -> Json): (raw: Rec<Json>)
    ensures |raw| == |r| && forall i :: 0 <= i < |r| ==> raw[i] == (r[i].0, write(r[i].1))
  {
    var raw := seq(|r|, i requires 0 <= i < |r| => (r[i].0, write(r[i].1)));
    assert DistinctKeys(raw);
    raw
  }

  function WrittenTexts(texts: seq<string>): (items: seq<Json>)
    ensures |items| == |texts| && forall i :: 0 <= i < |texts| ==> items[i] == Str(texts[i])
  {
    seq(|texts|, i requires 0 <= i < |texts| => Str(texts[i]))
  }

  function WrittenReference(ref: ContractRef): Json {
    NamesAreDistinct();
    Obj(RecordOf(REFERENCE_MEMBERS, [Str(ref.id), Str(ref.version), Str(ref.digest)]))
  }

  /** An action list, or an object where the value states a contract. */
  function WrittenScope(m: MappedScope): Json {
    var actions := Arr(WrittenTexts(m.actions));
    NamesAreDistinct();
    if m.contract.None? then actions else Obj(RecordOf(VALUE_NAMES, [actions, WrittenReference(m.contract.value)]))
  }

  function WrittenScopes(values: Rec<MappedScope>): Json {
    Obj(WrittenMembers(values, WrittenScope))
  }

  function WrittenDepth(depth: nat): Json {
    NamesAreDistinct();
    Obj(RecordOf(DEPTH_NAMES, [Num(depth as real)]))
  }

  lemma {:induction false} ReferenceWritten(ref: ContractRef)
    requires WellFormed(ref)
    ensures RefOf(WrittenReference(ref)) == Some(ref)
  {
    NamesAreDistinct();
    var values := [Str(ref.id), Str(ref.version), Str(ref.digest)];
    var r := RecordOf(REFERENCE_MEMBERS, values);
    OwnValueAt(r, 0);
    OwnValueAt(r, 1);
    OwnValueAt(r, 2);
    assert States(WrittenReference(ref), ref);
  }

  lemma {:induction false} ScopeWritten(m: MappedScope)
    requires m.contract.Some? ==> WellFormed(m.contract.value)
    ensures StatesScope(WrittenScope(m), m)
  {
    if m.contract.Some? {
      NamesAreDistinct();
      ReferenceWritten(m.contract.value);
      RecordStates(VALUE_NAMES, [Arr(WrittenTexts(m.actions)), WrittenReference(m.contract.value)]);
      assert VALUE_NAMES[0] == "actions" && VALUE_NAMES[1] == "resource_contract";
    }
  }

  lemma {:induction false} DepthWritten(depth: nat)
    ensures StatesDepth(WrittenDepth(depth), depth)
  {
    NamesAreDistinct();
    RecordStates(DEPTH_NAMES, [Num(depth as real)]);
    assert DEPTH_NAMES[0] == "max_depth";
  }

  // ---- The whole document ----

  function WrittenSubjects(rows: seq<SubjectRow>): (raw: seq<Json>)
    ensures |raw| == |rows| && forall i :: 0 <= i < |rows| ==> raw[i] == WrittenSubject(rows[i])
  {
    seq(|rows|, i requires 0 <= i < |rows| => WrittenSubject(rows[i]))
  }

  function WrittenClients(rows: seq<ClientRow>): (raw: seq<Json>)
    ensures |raw| == |rows| && forall i :: 0 <= i < |rows| ==> raw[i] == WrittenClient(rows[i])
  {
    seq(|rows|, i requires 0 <= i < |rows| => WrittenClient(rows[i]))
  }

  function WrittenMapping(resource: string, scopes: Rec<Rec<MappedScope>>): Json {
    NamesAreDistinct();
    Obj(RecordOf(SCOPES_NAMES, [Str(resource), Obj(WrittenMembers(scopes, WrittenScopes))]))
  }

  function WrittenProvenance(p: Provenance): (r: Rec<Json>) {
    NamesAreDistinct();
    RecordOf(PROVENANCE_NAMES, [Str(p.source), Str(p.exportId), Str(p.exportedAt)])
  }

  function WrittenInstance(): Json {
    NamesAreDistinct();
    Obj(RecordOf(INSTANCE_NAMES, [Bool(false), Bool(false)]))
  }

  function WrittenValues(doc: Document): seq<Json> {
    [Str(doc.contractId), Num(doc.version as real), Str(doc.issuedAt), Obj(WrittenProvenance(doc.provenance)),
     Str(doc.missionIssuer), Arr(WrittenSubjects(doc.subjects)), Arr(WrittenClients(doc.clients)),
     WrittenMapping(doc.resource, doc.scopes), Obj(WrittenMembers(doc.delegates, WrittenDepth)), WrittenInstance(),
     Str("mission_binding_failed")]
  }

  /** The document as a mapping contract. */
  function Written(doc: Document): Json {
    TopLevelIsDistinct();
    Obj(RecordOf(TOP_LEVEL, WrittenValues(doc)))
  }

  lemma {:induction false} RowsWritten(doc: Document)
    ensures StatesSubjects(Arr(WrittenSubjects(doc.subjects)), doc.subjects)
    ensures StatesClients(Arr(WrittenClients(doc.clients)), doc.clients)
  {
    forall i | 0 <= i < |doc.subjects|
      ensures StatesSubject(WrittenSubject(doc.subjects[i]), doc.subjects[i])
    {
      SubjectWritten(doc.subjects[i]);
    }
    forall i | 0 <= i < |doc.clients|
      ensures StatesClient(WrittenClient(doc.clients[i]), doc.clients[i])
    {
      ClientWritten(doc.clients[i]);
    }
  }

  lemma {:induction false} MappingWritten(resource: string, scopes: Rec<Rec<MappedScope>>)
    requires StatesWellFormed(scopes)
    ensures StatesMapping(WrittenMapping(resource, scopes), resource, scopes)
  {
    NamesAreDistinct();
    RecordStates(SCOPES_NAMES, [Str(resource), Obj(WrittenMembers(scopes, WrittenScopes))]);
    assert SCOPES_NAMES[0] == "resource" && SCOPES_NAMES[1] == "issuers";
    forall i, j | 0 <= i < |scopes| && 0 <= j < |scopes[i].1|
      ensures StatesScope(WrittenScope(scopes[i].1[j].1), scopes[i].1[j].1)
    {
      ScopeWritten(scopes[i].1[j].1);
    }
    forall i | 0 <= i < |scopes|
      ensures StatesScopes(WrittenScopes(scopes[i].1), scopes[i].1)
    {
    }
  }

  lemma {:induction false} DelegatesWritten(delegates: Rec<nat>)
    ensures StatesDelegates(Obj(WrittenMembers(delegates, WrittenDepth)), delegates)
  {
    forall i | 0 <= i < |delegates|
      ensures StatesDepth(WrittenDepth(delegates[i].1), delegates[i].1)
    {
      DepthWritten(delegates[i].1);
    }
  }

  lemma {:induction false} InstanceWritten()
    ensures StatesNoInstance(WrittenInstance())
  {
    NamesAreDistinct();
    RecordStates(INSTANCE_NAMES, [Bool(false), Bool(false)]);
    assert INSTANCE_NAMES[0] == "supported" && INSTANCE_NAMES[1] == "required";
  }

  lemma {:induction false} ProvenanceWritten(p: Provenance)
    ensures StatesProvenance(Obj(WrittenProvenance(p)), p)
  {
    NamesAreDistinct();
    RecordStates(PROVENANCE_NAMES, [Str(p.source), Str(p.exportId), Str(p.exportedAt)]);
    assert PROVENANCE_NAMES[0] == "source" && PROVENANCE_NAMES[1] == "export_id" &&
           PROVENANCE_NAMES[2] == "exported_at";
  }

  lemma {:induction false} WrittenMember(doc: Document, i: nat)
    requires i < 11
    ensures HoldsOnly(Written(doc), TOP_LEVEL) && Stated(Written(doc), TOP_LEVEL[i]) == WrittenValues(doc)[i]
  {
    TopLevelIsDistinct();
    RecordStates(TOP_LEVEL, WrittenValues(doc));
  }

  lemma {:induction false} WrittenStates(doc: Document)
    requires StatesWellFormed(doc.scopes)
    ensures StatesDocument(Written(doc), doc)
  {
    TopLevelNames();
    forall i: nat | i < 11
      ensures HoldsOnly(Written(doc), TOP_LEVEL) && Stated(Written(doc), TOP_LEVEL[i]) == WrittenValues(doc)[i]
    {
      WrittenMember(doc, i);
    }
    RowsWritten(doc);
    MappingWritten(doc.resource, doc.scopes);
    DelegatesWritten(doc.delegates);
    InstanceWritten();
    ProvenanceWritten(doc.provenance);
  }

  /** A loadable document, written, loads as itself. */
  lemma {:induction false} WrittenLoads(doc: Document, env: Env)
    requires Loadable(doc, env)
    ensures Parse(Written(doc), env) == Ok(doc)
  {
    WrittenStates(doc);
    ParsedExactly(Written(doc), env, doc);
  }

  /** The loader gives exactly the loadable documents. */
  lemma {:induction false} LoadsExactlyTheLoadable(doc: Document, env: Env)
    ensures (exists raw :: Parse(raw, env) == Ok(doc)) <==> Loadable(doc, env)
  {
    if Loadable(doc, env) {
      WrittenLoads(doc, env);
    }
    forall raw | Parse(raw, env) == Ok(doc)
      ensures Loadable(doc, env)
    {
      ParsedExactly(raw, env, doc);
    }
  }

  /** A date for the documents of the examples. */
  const DATE := "2026-01-01T00:00:00Z"

  lemma {:induction false} DateIsDated()
    ensures IsDateTime(DATE)
  {
    var zone := 19;
    assert DATE[zone..] == "Z" && IsZone(DATE[zone..]);
  }
}
