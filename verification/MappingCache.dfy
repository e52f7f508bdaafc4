/** The governed cache: it judges and records a version in one ledger commit, and only then serves it. */
module MappingCache {
  import opened Wrappers
  import opened Json
  import opened ResourceContracts
  import opened MappingContract
  import opened MappingSnapshot
  import opened ScopeBindingLedger

  // ---- A document's scope bindings ----

  function IssuerBindings(issuer: string, values: seq<(string, MappedScope)>,
                          resource: string): (bindings: seq<ScopeBinding>)
    ensures |bindings| == |values|
    ensures forall j :: 0 <= j < |values| ==>
            bindings[j] == ScopeBinding(issuer, values[j].0, resource, values[j].1.contract)
  {
    if values == [] then []
    else
      var n := |values| - 1;
      IssuerBindings(issuer, values[..n], resource) +
          [ScopeBinding(issuer, values[n].0, resource, values[n].1.contract)]
  }

  function Bindings(scopes: seq<(string, Rec<MappedScope>)>, resource: string): seq<ScopeBinding> {
    if scopes == [] then []
    else
      var n := |scopes| - 1;
      Bindings(scopes[..n], resource) + IssuerBindings(scopes[n].0, scopes[n].1, resource)
  }

  /** Every scope value `doc` maps, with the contract it states or none. */
  function ScopeBindingsOf(doc: Document): seq<ScopeBinding> {
    Bindings(doc.scopes, doc.resource)
  }

  method CollectScopeBindings(doc: Document) returns (out: seq<ScopeBinding>)
    ensures out == ScopeBindingsOf(doc)
  {
    out := [];
    for i := 0 to |doc.scopes|
      invariant out == Bindings(doc.scopes[..i], doc.resource)
    {
      var issuer, values := doc.scopes[i].0, doc.scopes[i].1;
      ghost var before := out;
      for j := 0 to |values|
        invariant out == before + IssuerBindings(issuer, values[..j], doc.resource)
      {
        assert values[..j + 1][..j] == values[..j];
        out := out + [ScopeBinding(issuer, values[j].0, doc.resource, values[j].1.contract)];
      }
      assert values[..|values|] == values;
      assert doc.scopes[..i + 1][..i] == doc.scopes[..i];
    }
    assert doc.scopes[..|doc.scopes|] == doc.scopes;
  }

  /** What `doc` maps an issuer's scope value to. */
  function ScopeValue(doc: Document, key: Key): Option<MappedScope> {
    var values := OwnValue(doc.scopes, key.issuer);
    if values.None? then None else OwnValue(values.value, key.scope)
  }

  predicate MapsScope(doc: Document, key: Key) {
    ScopeValue(doc, key).Some?
  }

  /** A prefix of the issuers maps the key to `m`. */
  ghost predicate Holds(scopes: seq<(string, Rec<MappedScope>)>, key: Key, m: MappedScope) {
    exists i, j :: 0 <= i < |scopes| && 0 <= j < |scopes[i].1| && scopes[i].0 == key.issuer &&
        scopes[i].1[j] == (key.scope, m)
  }

  lemma {:induction false} BindingsExact(scopes: Rec<Rec<MappedScope>>, resource: string, b: ScopeBinding)
    ensures b in Bindings(scopes, resource) <==>
            b.resource == resource && exists m: MappedScope :: m.contract == b.contract && Holds(scopes, KeyOf(b), m)
  {
    if scopes != [] {
      var n := |scopes| - 1;
      var init, last := scopes[..n], IssuerBindings(scopes[n].0, scopes[n].1, resource);
      BindingsExact(init, resource, b);
      assert Bindings(scopes, resource) == Bindings(init, resource) + last;
      if b in last {
        var j :| 0 <= j < |last| && last[j] == b;
        assert Holds(scopes, KeyOf(b), scopes[n].1[j].1);
      }
      if b in Bindings(init, resource) {
        var m: MappedScope :| m.contract == b.contract && Holds(init, KeyOf(b), m);
        HoldsInPrefix(scopes, KeyOf(b), m);
      }
      if b.resource == resource && exists m: MappedScope :: m.contract == b.contract && Holds(scopes, KeyOf(b), m) {
        var m: MappedScope :| m.contract == b.contract && Holds(scopes, KeyOf(b), m);
        HoldsInPrefix(scopes, KeyOf(b), m);
        if !Holds(init, KeyOf(b), m) {
          var j :| 0 <= j < |scopes[n].1| && scopes[n].1[j] == (b.scope, m);
          assert last[j] == b;
        }
      }
    }
  }

  lemma HoldsInPrefix(scopes: seq<(string, Rec<MappedScope>)>, key: Key, m: MappedScope)
    requires scopes != []
    ensures var n := |scopes| - 1;
            Holds(scopes, key, m) <==>
            (Holds(scopes[..n], key, m) ||
             (scopes[n].0 == key.issuer && exists j :: 0 <= j < |scopes[n].1| && scopes[n].1[j] == (key.scope, m)))
  {
    var n := |scopes| - 1;
    assert forall i :: 0 <= i < n ==> scopes[..n][i] == scopes[i];
    if Holds(scopes[..n], key, m) {
      var i, j :| 0 <= i < n && 0 <= j < |scopes[..n][i].1| && scopes[..n][i].0 == key.issuer &&
          scopes[..n][i].1[j] == (key.scope, m);
      assert scopes[i].1[j] == (key.scope, m);
    }
  }

  lemma {:induction false} BindingsDistinct(scopes: Rec<Rec<MappedScope>>, resource: string)
    ensures DistinctBindings(Bindings(scopes, resource))
    ensures forall k :: 0 <= k < |Bindings(scopes, resource)| ==>
              exists i :: 0 <= i < |scopes| && scopes[i].0 == Bindings(scopes, resource)[k].issuer
  {
    if scopes != [] {
      var n := |scopes| - 1;
      var init, last := scopes[..n], IssuerBindings(scopes[n].0, scopes[n].1, resource);
      BindingsDistinct(init, resource);
      var all, earlier := Bindings(scopes, resource), Bindings(init, resource);
      assert all == earlier + last;
      forall k | 0 <= k < |all|
        ensures exists i :: 0 <= i < |scopes| && scopes[i].0 == all[k].issuer
        ensures k < |earlier| ==> all[k].issuer != scopes[n].0
      {
        if k < |earlier| {
          var i :| 0 <= i < n && init[i].0 == earlier[k].issuer;
          assert scopes[i].0 == all[k].issuer;
        } else {
          assert all[k] == last[k - |earlier|];
        }
      }
    }
  }

  lemma HoldsIsScopeValue(doc: Document, key: Key, m: MappedScope)
    ensures Holds(doc.scopes, key, m) <==> ScopeValue(doc, key) == Some(m)
  {
    if Holds(doc.scopes, key, m) {
      var i, j :| 0 <= i < |doc.scopes| && 0 <= j < |doc.scopes[i].1| && doc.scopes[i].0 == key.issuer &&
          doc.scopes[i].1[j] == (key.scope, m);
      OwnValueAt(doc.scopes, i);
      OwnValueAt(doc.scopes[i].1, j);
    }
    if ScopeValue(doc, key) == Some(m) {
      var values := OwnValue(doc.scopes, key.issuer).value;
      var i :| 0 <= i < |doc.scopes| && doc.scopes[i] == (key.issuer, values);
      var j :| 0 <= j < |values| && values[j] == (key.scope, m);
      assert doc.scopes[i].1[j] == (key.scope, m);
    }
  }

  /** A collected binding is the document's own. */
  lemma CollectedIsMapped(doc: Document, b: ScopeBinding)
    requires b in ScopeBindingsOf(doc)
    ensures ScopeValue(doc, KeyOf(b)).Some? && b.resource == doc.resource &&
            b.contract == ScopeValue(doc, KeyOf(b)).value.contract
  {
    BindingsExact(doc.scopes, doc.resource, b);
    var m: MappedScope :| m.contract == b.contract && Holds(doc.scopes, KeyOf(b), m);
    HoldsIsScopeValue(doc, KeyOf(b), m);
  }

  /** The collected bindings hold under each key exactly what the document maps it to. */
  lemma CollectedExactly(doc: Document, key: Key)
    ensures Find(ScopeBindingsOf(doc), key) ==
            if MapsScope(doc, key)
            then Some(ScopeBinding(key.issuer, key.scope, doc.resource, ScopeValue(doc, key).value.contract)) else None
  {
    var bindings := ScopeBindingsOf(doc);
    if Find(bindings, key).Some? {
      CollectedIsMapped(doc, Find(bindings, key).value);
    }
    if MapsScope(doc, key) {
      var m := ScopeValue(doc, key).value;
      var b := ScopeBinding(key.issuer, key.scope, doc.resource, m.contract);
      HoldsIsScopeValue(doc, key, m);
      BindingsExact(doc.scopes, doc.resource, b);
      var i :| 0 <= i < |bindings| && bindings[i] == b;
      assert KeyOf(bindings[i]) == key;
    }
  }

  lemma CollectedAreSound(doc: Document)
    requires StatesWellFormed(doc.scopes)
    ensures Sound(ScopeBindingsOf(doc))
  {
    BindingsDistinct(doc.scopes, doc.resource);
    var bindings := ScopeBindingsOf(doc);
    forall k | 0 <= k < |bindings| && bindings[k].contract.Some?
      ensures WellFormed(bindings[k].contract.value)
    {
      BindingsExact(doc.scopes, doc.resource, bindings[k]);
      var m: MappedScope :| m.contract == bindings[k].contract && Holds(doc.scopes, KeyOf(bindings[k]), m);
      var i, j :| 0 <= i < |doc.scopes| && 0 <= j < |doc.scopes[i].1| && doc.scopes[i].1[j] == (bindings[k].scope, m);
      assert doc.scopes[i].1[j].1.contract.Some?;
    }
  }

  // ---- The judgement made under the ledger's lock ----

  datatype Refusal =
    | Unparsed(fault: Fault)
    | NotAboveInstalled(version: nat, installed: nat)
    | BelowRecorded(version: nat, recorded: nat)
    | AnotherDocument(version: nat)
    | Repoints(version: nat, key: Key)
    | Withdraws(version: nat, key: Key)
    | LedgerFailed(ledgerFault: LedgerFault)

  /**
   * `b`'s key is recorded under another contract, under one where it states none, or under none where it states one.
   */
  predicate Repointed(recorded: seq<ScopeBinding>, b: ScopeBinding) {
    var was := Find(recorded, KeyOf(b));
    was.Some? && !SameBinding(was.value, b)
  }

  /** A recorded value left unmapped though its contract is supported at `at`. */
  predicate Withdrawn(contracts: Declarations, incoming: seq<ScopeBinding>, was: ScopeBinding, at: int) {
    was.contract.Some? && Find(incoming, KeyOf(was)).None? && Supported(contracts, was.contract.value, was.resource, at)
  }

  function FirstRepointed(recorded: seq<ScopeBinding>, incoming: seq<ScopeBinding>): (k: Option<Key>)
    ensures k.None? ==> forall i :: 0 <= i < |incoming| ==> !Repointed(recorded, incoming[i])
    ensures k.Some? ==>
              exists i :: 0 <= i < |incoming| && KeyOf(incoming[i]) == k.value && Repointed(recorded, incoming[i]) &&
                forall j :: 0 <= j < i ==> !Repointed(recorded, incoming[j])
  {
    if incoming == [] then None
    else if Repointed(recorded, incoming[0]) then Some(KeyOf(incoming[0]))
    else
      var k := FirstRepointed(recorded, incoming[1..]);
      assert forall i :: 0 <= i < |incoming| - 1 ==> incoming[1..][i] == incoming[i + 1];
      k
  }

  function FirstWithdrawn(contracts: Declarations, recorded: seq<ScopeBinding>, incoming: seq<ScopeBinding>,
                          at: int): (k: Option<Key>)
    ensures k.None? ==> forall i :: 0 <= i < |recorded| ==> !Withdrawn(contracts, incoming, recorded[i], at)
    ensures k.Some? ==>
              exists i :: 0 <= i < |recorded| && KeyOf(recorded[i]) == k.value &&
                Withdrawn(contracts, incoming, recorded[i], at) &&
                forall j :: 0 <= j < i ==> !Withdrawn(contracts, incoming, recorded[j], at)
  {
    if recorded == [] then None
    else if Withdrawn(contracts, incoming, recorded[0], at) then Some(KeyOf(recorded[0]))
    else
      var k := FirstWithdrawn(contracts, recorded[1..], incoming, at);
      assert forall i :: 0 <= i < |recorded| - 1 ==> recorded[1..][i] == recorded[i + 1];
      k
  }

  function Unrecorded(recorded: seq<ScopeBinding>, incoming: seq<ScopeBinding>): (more: seq<ScopeBinding>)
    ensures forall b :: b in more <==> b in incoming && Find(recorded, KeyOf(b)).None?
    ensures DistinctBindings(incoming) ==> DistinctBindings(more)
  {
    if incoming == [] then []
    else
      var n := |incoming| - 1;
      var more := Unrecorded(recorded, incoming[..n]);
      assert incoming == incoming[..n] + [incoming[n]];
      if Find(recorded, KeyOf(incoming[n])).Some? then more
      else
        assert DistinctBindings(incoming) ==> forall i :: 0 <= i < |more| ==> KeyOf(more[i]) != KeyOf(incoming[n]) by {
          forall i | 0 <= i < |more| && DistinctBindings(incoming)
            ensures KeyOf(more[i]) != KeyOf(incoming[n])
          {
            assert more[i] in incoming[..n];
          }
        }
        more + [incoming[n]]
  }

  /** What an install decides against the ledger's state: a refusal, or what to record. */
  function Judged(contracts: Declarations, doc: Document, digest: Digest, at: int,
                  state: LedgerState): (d: Decision<Option<Refusal>>)
    ensures d.result.Some? ==> d.record.None?
  {
    var hw := state.highWater;
    var incoming := ScopeBindingsOf(doc);
    if hw.Some? && doc.version < hw.value.version
    then Decision(Some(BelowRecorded(doc.version, hw.value.version)), None)
    else if hw.Some? && doc.version == hw.value.version && digest != hw.value.digest then
      Decision(Some(AnotherDocument(doc.version)), None)
    else
      var repointed := FirstRepointed(state.bindings, incoming);
      if repointed.Some? then Decision(Some(Repoints(doc.version, repointed.value)), None)
      else
        var withdrawn := FirstWithdrawn(contracts, state.bindings, incoming, at);
        if withdrawn.Some? then Decision(Some(Withdraws(doc.version, withdrawn.value)), None)
        else
          var raises := hw.None? || doc.version > hw.value.version;
          var raised := if raises then Some(HighWater(doc.version, digest)) else None;
          Decision(None, Some(Record(Unrecorded(state.bindings, incoming), raised)))
  }

  /** What a deployment's caches share: the declarations, and the loader run over them. */
  datatype Deployment = Deployment(contracts: Declarations, load: Json -> Result<Document, Fault>)

  /** The loader lets only accepted documents through. */
  ghost predicate Strict(d: Deployment) {
    forall raw :: d.load(raw).Ok? ==> Accepted(d.load(raw).value)
  }

  function DeploymentOf(env: Env): Deployment {
    Deployment(env.contracts, raw => Parse(raw, env))
  }

  lemma DeploymentIsStrict(env: Env)
    ensures Strict(DeploymentOf(env))
  {
    forall raw | Parse(raw, env).Ok?
      ensures Accepted(Parse(raw, env).value)
    {
      ParsedIsAccepted(raw, env);
    }
  }

  /** Before the ledger is asked: the document loads, and its version is above this cache's own. */
  function Prechecked(deployment: Deployment, highestVersion: nat, raw: Json): Result<Document, Refusal> {
    var doc := deployment.load(raw);
    if doc.Err? then Err(Unparsed(doc.error))
    else if doc.value.version <= highestVersion then Err(NotAboveInstalled(doc.value.version, highestVersion))
    else Ok(doc.value)
  }

  function Concluded(d: Decision<Option<Refusal>>,
                     next: Result<LedgerState, LedgerFault>): Result<LedgerState, Refusal> {
    if next.Err? then Err(LedgerFailed(next.error))
    else if d.result.Some? then Err(d.result.value)
    else Ok(next.value)
  }

  /** One install up to its commit, over a ledger that can be reached: the document to serve and the ledger after. */
  function Attempted(deployment: Deployment, highestVersion: nat, raw: Json, at: int, state: LedgerState)
    : Result<(Document, LedgerState), Refusal>
  {
    var doc :- Prechecked(deployment, highestVersion, raw);
    var d := Judged(deployment.contracts, doc, CanonicalDigest(raw), at, state);
    var next :- Concluded(d, Committed(state, d.record));
    Ok((doc, next))
  }

  /**
   * The record an install hands over never trips either ledger's own guards:
   * no key is recorded twice, and the mark never falls or changes in place.
   */
  lemma InstallNeverTripsTheGuards(contracts: Declarations, doc: Document, digest: Digest, at: int, state: LedgerState)
    requires Accepted(doc) && Sound(state.bindings)
    ensures var d := Judged(contracts, doc, digest, at, state);
            && Committed(state, d.record).Ok?
            && StoreOutcome(state, true, d.record) == Committed(state, d.record)
            && Sound(Committed(state, d.record).value.bindings)
  {
    var d := Judged(contracts, doc, digest, at, state);
    if d.record.Some? {
      var incoming, more := ScopeBindingsOf(doc), d.record.value.bindings;
      CollectedAreSound(doc);
      var all := state.bindings + more;
      forall i, j | 0 <= i < j < |all|
        ensures KeyOf(all[i]) != KeyOf(all[j])
      {
        if i < |state.bindings| <= j {
          assert all[j] in more;
        }
      }
      AppendedIff(state.bindings, more);
      forall i | 0 <= i < |all| && all[i].contract.Some?
        ensures WellFormed(all[i].contract.value)
      {
        if i >= |state.bindings| {
          assert all[i] in more;
          assert all[i] in incoming;
        }
      }
    }
  }

  // ---- When an install is accepted ----

  /** `b` states no contract, or one no longer supported at `at`. */
  ghost predicate Lapsed(contracts: Declarations, b: ScopeBinding, at: int) {
    b.contract.Some? ==> !Supported(contracts, b.contract.value, b.resource, at)
  }

  /** There is no mark, a lower one, or this very document's. */
  ghost predicate MarkAdmits(mark: Option<HighWater>, doc: Document, digest: Digest) {
    mark.None? || mark.value.version < doc.version ||
    (mark.value.version == doc.version && mark.value.digest == digest)
  }

  /** `doc` maps the key under another contract than the one, or the none, recorded. */
  ghost predicate Changes(doc: Document, recorded: seq<ScopeBinding>, key: Key) {
    && MapsScope(doc, key) && Find(recorded, key).Some?
    && Find(recorded, key).value.contract != ScopeValue(doc, key).value.contract
  }

  ghost predicate ChangesNone(doc: Document, recorded: seq<ScopeBinding>) {
    forall key :: !Changes(doc, recorded, key)
  }

  /** `doc` leaves out a recorded value whose contract is still supported. */
  ghost predicate Abandons(contracts: Declarations, doc: Document, was: ScopeBinding, at: int) {
    !MapsScope(doc, KeyOf(was)) && !Lapsed(contracts, was, at)
  }

  ghost predicate AbandonsNone(contracts: Declarations, doc: Document, recorded: seq<ScopeBinding>, at: int) {
    forall i :: 0 <= i < |recorded| ==> !Abandons(contracts, doc, recorded[i], at)
  }

  /** All an install asks of a loaded document and the ledger. */
  ghost predicate Admissible(contracts: Declarations, doc: Document, digest: Digest, at: int, state: LedgerState) {
    && MarkAdmits(state.highWater, doc, digest)
    && ChangesNone(doc, state.bindings)
    && AbandonsNone(contracts, doc, state.bindings, at)
  }

  /** The first of the document's values that it changes. */
  ghost predicate FirstChanged(doc: Document, recorded: seq<ScopeBinding>, key: Key) {
    var mapped := ScopeBindingsOf(doc);
    exists i :: 0 <= i < |mapped| && KeyOf(mapped[i]) == key && Changes(doc, recorded, key) &&
      forall j :: 0 <= j < i ==> !Changes(doc, recorded, KeyOf(mapped[j]))
  }

  /** The first of the recorded values that the document abandons. */
  ghost predicate FirstAbandoned(contracts: Declarations, doc: Document, recorded: seq<ScopeBinding>, at: int,
                                 key: Key) {
    exists i :: 0 <= i < |recorded| && KeyOf(recorded[i]) == key && Abandons(contracts, doc, recorded[i], at) &&
      forall j :: 0 <= j < i ==> !Abandons(contracts, doc, recorded[j], at)
  }

  /** Which demand fails first, and where. */
  ghost predicate RefusedFor(contracts: Declarations, doc: Document, digest: Digest, at: int, state: LedgerState,
                             why: Refusal) {
    match why
    case BelowRecorded(version, recorded) =>
      version == doc.version && state.highWater.Some? && state.highWater.value.version == recorded && version < recorded
    case AnotherDocument(version) =>
      && version == doc.version && state.highWater.Some? && state.highWater.value.version == version
      && state.highWater.value.digest != digest
    case Repoints(version, key) =>
      version == doc.version && MarkAdmits(state.highWater, doc, digest) && FirstChanged(doc, state.bindings, key)
    case Withdraws(version, key) =>
      && version == doc.version && MarkAdmits(state.highWater, doc, digest) && ChangesNone(doc, state.bindings)
      && FirstAbandoned(contracts, doc, state.bindings, at, key)
    case _ => false
  }

  /**
   * The ledger after `doc` is accepted: every binding as it was, then the
   * values not yet recorded, as the document states them and in its order, and
   * the document's mark.
   */
  ghost predicate Absorbs(doc: Document, digest: Digest, state: LedgerState, next: LedgerState) {
    && state.bindings <= next.bindings && Sound(next.bindings)
    && (forall key :: Find(next.bindings, key) ==
          if Find(state.bindings, key).Some? then Find(state.bindings, key)
          else if MapsScope(doc, key)
          then Some(ScopeBinding(key.issuer, key.scope, doc.resource, ScopeValue(doc, key).value.contract))
          else None)
    && (exists places :: Selects(places, ScopeBindingsOf(doc), next.bindings[|state.bindings|..]))
    && next.highWater == Some(HighWater(doc.version, digest))
  }

  lemma RepointedIsChanged(doc: Document, recorded: seq<ScopeBinding>, b: ScopeBinding)
    requires Accepted(doc) && Sound(recorded) && b in ScopeBindingsOf(doc)
    ensures Repointed(recorded, b) <==> Changes(doc, recorded, KeyOf(b))
  {
    CollectedIsMapped(doc, b);
    CollectedAreSound(doc);
  }

  lemma RepointedExactly(doc: Document, recorded: seq<ScopeBinding>)
    requires Accepted(doc) && Sound(recorded)
    ensures var k := FirstRepointed(recorded, ScopeBindingsOf(doc));
            if k.None? then ChangesNone(doc, recorded) else FirstChanged(doc, recorded, k.value)
  {
    var mapped := ScopeBindingsOf(doc);
    forall i | 0 <= i < |mapped|
      ensures Repointed(recorded, mapped[i]) <==> Changes(doc, recorded, KeyOf(mapped[i]))
    {
      RepointedIsChanged(doc, recorded, mapped[i]);
    }
    forall key | Changes(doc, recorded, key)
      ensures exists i :: 0 <= i < |mapped| && KeyOf(mapped[i]) == key
    {
      CollectedExactly(doc, key);
    }
  }

  lemma WithdrawnExactly(contracts: Declarations, doc: Document, recorded: seq<ScopeBinding>, at: int)
    ensures var k := FirstWithdrawn(contracts, recorded, ScopeBindingsOf(doc), at);
            if k.None? then AbandonsNone(contracts, doc, recorded, at)
            else FirstAbandoned(contracts, doc, recorded, at, k.value)
  {
    forall i | 0 <= i < |recorded|
      ensures Withdrawn(contracts, ScopeBindingsOf(doc), recorded[i], at) <==>
              Abandons(contracts, doc, recorded[i], at)
    {
      CollectedExactly(doc, KeyOf(recorded[i]));
    }
  }

  lemma {:induction false} UnrecordedNext(recorded: seq<ScopeBinding>, incoming: seq<ScopeBinding>, b: ScopeBinding)
    ensures Unrecorded(recorded, incoming + [b]) ==
            if Find(recorded, KeyOf(b)).None? then Unrecorded(recorded, incoming) + [b]
            else Unrecorded(recorded, incoming)
  {
    assert (incoming + [b])[..|incoming|] == incoming;
  }

  lemma {:induction false} UnrecordedSelects(recorded: seq<ScopeBinding>, incoming: seq<ScopeBinding>)
    returns (at: seq<nat>)
    ensures Selects(at, incoming, Unrecorded(recorded, incoming))
  {
    at := [];
    if incoming != [] {
      var n := |incoming| - 1;
      var front, b := incoming[..n], incoming[n];
      at := UnrecordedSelects(recorded, front);
      assert incoming == front + [b];
      SelectsNext(at, front, Unrecorded(recorded, front), b, Find(recorded, KeyOf(b)).None?);
      UnrecordedNext(recorded, front, b);
      at := if Find(recorded, KeyOf(b)).None? then at + [|front|] else at;
    }
  }

  /** What is found once the document's unrecorded values are added. */
  lemma FindAfter(doc: Document, recorded: seq<ScopeBinding>, key: Key)
    requires Accepted(doc)
    ensures Find(recorded + Unrecorded(recorded, ScopeBindingsOf(doc)), key) ==
            if Find(recorded, key).Some? then Find(recorded, key) else Find(ScopeBindingsOf(doc), key)
  {
    var incoming := ScopeBindingsOf(doc);
    var more := Unrecorded(recorded, incoming);
    FindInExtension(recorded, more, key);
    CollectedAreSound(doc);
    if Find(recorded, key).None? && Find(incoming, key).Some? {
      var b := Find(incoming, key).value;
      assert b in more;
      var i :| 0 <= i < |more| && more[i] == b;
      FindInDistinct(more, i);
    }
    if Find(more, key).Some? {
      assert Find(more, key).value in incoming;
    }
  }

  lemma AddingAbsorbs(doc: Document, digest: Digest, state: LedgerState, next: LedgerState)
    requires Accepted(doc) && Sound(next.bindings) && next.highWater == Some(HighWater(doc.version, digest))
    requires next.bindings == state.bindings + Unrecorded(state.bindings, ScopeBindingsOf(doc))
    ensures Absorbs(doc, digest, state, next)
  {
    assert next.bindings[|state.bindings|..] == Unrecorded(state.bindings, ScopeBindingsOf(doc));
    var places := UnrecordedSelects(state.bindings, ScopeBindingsOf(doc));
    forall key
      ensures Find(next.bindings, key) ==
              if Find(state.bindings, key).Some? then Find(state.bindings, key)
              else if MapsScope(doc, key)
              then Some(ScopeBinding(key.issuer, key.scope, doc.resource, ScopeValue(doc, key).value.contract))
              else None
    {
      FindAfter(doc, state.bindings, key);
      CollectedExactly(doc, key);
    }
  }

  lemma JudgedAbsorbs(contracts: Declarations, doc: Document, digest: Digest, at: int, state: LedgerState)
    requires Accepted(doc) && Sound(state.bindings) && Judged(contracts, doc, digest, at, state).result.None?
    ensures var next := Committed(state, Judged(contracts, doc, digest, at, state).record);
            next.Ok? && Absorbs(doc, digest, state, next.value)
  {
    InstallNeverTripsTheGuards(contracts, doc, digest, at, state);
    AddingAbsorbs(doc, digest, state, Committed(state, Judged(contracts, doc, digest, at, state).record).value);
  }

  /**
   * The judgement accepts exactly where the mark is absent, lower or the
   * document's own, no recorded value's contract changes, and no value whose
   * contract is supported is left out; otherwise it says which of the three
   * fails first, and for which value.
   */
  lemma JudgedExactly(contracts: Declarations, doc: Document, digest: Digest, at: int, state: LedgerState)
    requires Accepted(doc) && Sound(state.bindings)
    ensures var d := Judged(contracts, doc, digest, at, state);
            && (d.result.None? <==> Admissible(contracts, doc, digest, at, state))
            && (d.result.Some? ==> RefusedFor(contracts, doc, digest, at, state, d.result.value))
  {
    RepointedExactly(doc, state.bindings);
    WithdrawnExactly(contracts, doc, state.bindings, at);
  }

  ghost predicate Installable(d: Deployment, highestVersion: nat, raw: Json, at: int, state: LedgerState) {
    && d.load(raw).Ok? && d.load(raw).value.version > highestVersion
    && Admissible(d.contracts, d.load(raw).value, CanonicalDigest(raw), at, state)
  }

  /** Why an install is refused over a ledger that can be reached. */
  ghost predicate InstallRefusedFor(d: Deployment, highestVersion: nat, raw: Json, at: int, state: LedgerState,
                                    why: Refusal) {
    var doc := d.load(raw);
    match why
    case Unparsed(fault) => doc == Err(fault)
    case NotAboveInstalled(version, installed) =>
      doc.Ok? && version == doc.value.version && installed == highestVersion && version <= installed
    case _ =>
      && doc.Ok? && doc.value.version > highestVersion
      && RefusedFor(d.contracts, doc.value, CanonicalDigest(raw), at, state, why)
  }

  /** An attempt gives the document and the ledger that absorbs it, exactly where it is installable. */
  lemma AttemptedExactly(d: Deployment, highestVersion: nat, raw: Json, at: int, state: LedgerState)
    requires Strict(d) && Sound(state.bindings)
    ensures var r := Attempted(d, highestVersion, raw, at, state);
            && (r.Ok? <==> Installable(d, highestVersion, raw, at, state))
            && (r.Ok? ==> r.value.0 == d.load(raw).value &&
                          Absorbs(r.value.0, CanonicalDigest(raw), state, r.value.1))
            && (r.Err? ==> InstallRefusedFor(d, highestVersion, raw, at, state, r.error))
  {
    var pre := Prechecked(d, highestVersion, raw);
    if pre.Ok? {
      var judged := Judged(d.contracts, pre.value, CanonicalDigest(raw), at, state);
      InstallNeverTripsTheGuards(d.contracts, pre.value, CanonicalDigest(raw), at, state);
      JudgedExactly(d.contracts, pre.value, CanonicalDigest(raw), at, state);
      if judged.result.None? {
        JudgedAbsorbs(d.contracts, pre.value, CanonicalDigest(raw), at, state);
      }
    }
  }

  // ---- The audit log ----

  datatype ContractId = ContractId(id: string, version: nat, exportId: string)

  function IdOf(doc: Document): ContractId {
    ContractId(doc.contractId, doc.version, doc.provenance.exportId)
  }

  datatype AuditOutcome = NoSnapshot | Decided(outcome: Outcome)

  datatype AuditRecord =
    | IdentityRecord(at: int, contract: Option<ContractId>, subject: Identity, client: Identity, missionIssuer: string,
                     outcome: AuditOutcome)
    | InstallRecord(at: int, installed: ContractId)
    | InstallRefused(at: int, reason: Refusal)
    | InvalidateRecord(at: int)

  /** The contract in force after the log's installs and invalidations, in order. */
  function Replayed(log: seq<AuditRecord>): Option<ContractId> {
    if log == [] then None
    else
      var last := log[|log| - 1];
      if last.InstallRecord? then Some(last.installed)
      else if last.InvalidateRecord? then None
      else Replayed(log[..|log| - 1])
  }

  function HighestInstalled(log: seq<AuditRecord>): nat {
    if log == [] then 0
    else
      var last, before := log[|log| - 1], HighestInstalled(log[..|log| - 1]);
      if last.InstallRecord? && last.installed.version > before then last.installed.version else before
  }

  lemma LogExtends(log: seq<AuditRecord>, entry: AuditRecord)
    ensures Replayed(log + [entry]) ==
            if entry.InstallRecord? then Some(entry.installed) else if entry.InvalidateRecord? then None
            else Replayed(log)
    ensures HighestInstalled(log + [entry]) ==
            if entry.InstallRecord? && entry.installed.version > HighestInstalled(log) then entry.installed.version
            else HighestInstalled(log)
  {
    assert (log + [entry])[..|log|] == log;
  }

  /** What a cache holds, and the log it keeps. */
  datatype Held = Held(snapshot: Option<Snapshot>, highestVersion: nat, log: seq<AuditRecord>)

  /**
   * What one call of a cache comes to: a version served, an install refused, the snapshot dropped, or an identity
   * decided.
   */
  datatype Change =
    | Serves(doc: Document, at: int)
    | Refuses(at: int, reason: Refusal)
    | Drops(at: int)
    | Decides(now: int, contract: Option<ContractId>, subject: Identity, client: Identity, missionIssuer: string,
              outcome: AuditOutcome)

  function Changed(h: Held, change: Change, maxStaleMs: nat): Held {
    match change
    case Serves(doc, at) => Held(Some(SnapshotOf(doc, at, maxStaleMs)), doc.version,
                                 h.log + [InstallRecord(at, IdOf(doc))])
    case Refuses(at, reason) => h.(log := h.log + [InstallRefused(at, reason)])
    case Drops(at) => h.(snapshot := None, log := h.log + [InvalidateRecord(at)])
    case Decides(now, contract, subject, client, missionIssuer, outcome) =>
      h.(log := h.log + [IdentityRecord(now, contract, subject, client, missionIssuer, outcome)])
  }

  /**
   * One call as a caller makes it. `verdict` is what the ledger's commit comes
   * to if an install reaches it: a refusal, or none where it is recorded.
   */
  datatype Call =
    | InstallCall(raw: Json, at: int, verdict: Option<Refusal>)
    | InvalidateCall(at: int)
    | ResolveCall(handed: Option<Snapshot>, subject: Identity, client: Identity, missionIssuer: string, now: int)

  /** What a call comes to, in a cache that has reached `highestVersion`. */
  function ChangeOf(d: Deployment, highestVersion: nat, call: Call): Change {
    match call
    case InstallCall(raw, at, verdict) =>
      var pre := Prechecked(d, highestVersion, raw);
      if pre.Err? then Refuses(at, pre.error)
      else if verdict.Some? then Refuses(at, verdict.value)
      else Serves(pre.value, at)
    case InvalidateCall(at) => Drops(at)
    case ResolveCall(None, subject, client, missionIssuer, now) =>
      Decides(now, None, subject, client, missionIssuer, NoSnapshot)
    case ResolveCall(Some(s), subject, client, missionIssuer, now) =>
      var decision := Decided(Resolve(s, subject, client, missionIssuer, now));
      Decides(now, Some(IdOf(s.doc)), subject, client, missionIssuer, decision)
  }

  function Called(d: Deployment, h: Held, call: Call, maxStaleMs: nat): Held {
    Changed(h, ChangeOf(d, h.highestVersion, call), maxStaleMs)
  }

  /** An install's effect on what is held, spelled out. */
  lemma InstallCalled(d: Deployment, h: Held, raw: Json, at: int, verdict: Option<Refusal>, maxStaleMs: nat)
    ensures var pre := Prechecked(d, h.highestVersion, raw);
            Called(d, h, InstallCall(raw, at, verdict), maxStaleMs) ==
            if pre.Err? then h.(log := h.log + [InstallRefused(at, pre.error)])
            else if verdict.Some? then h.(log := h.log + [InstallRefused(at, verdict.value)])
            else Held(Some(SnapshotOf(pre.value, at, maxStaleMs)), pre.value.version,
                      h.log + [InstallRecord(at, IdOf(pre.value))])
  {
  }

  /** What a decision through `handed` records. */
  function DecisionRecord(handed: Option<Snapshot>, subject: Identity, client: Identity, missionIssuer: string,
                          now: int): AuditRecord
  {
    if handed.None? then IdentityRecord(now, None, subject, client, missionIssuer, NoSnapshot)
    else IdentityRecord(now, Some(IdOf(handed.value.doc)), subject, client, missionIssuer,
                        Decided(Resolve(handed.value, subject, client, missionIssuer, now)))
  }

  lemma DecisionCalled(d: Deployment, h: Held, handed: Option<Snapshot>, subject: Identity, client: Identity,
                       missionIssuer: string, now: int, maxStaleMs: nat)
    ensures Called(d, h, ResolveCall(handed, subject, client, missionIssuer, now), maxStaleMs) ==
            h.(log := h.log + [DecisionRecord(handed, subject, client, missionIssuer, now)])
  {
  }

  const NOTHING_HELD := Held(None, 0, [])

  /** What a new cache holds after `calls`, in order. */
  function AfterCalls(d: Deployment, calls: seq<Call>, maxStaleMs: nat): Held {
    if calls == [] then NOTHING_HELD
    else Called(d, AfterCalls(d, calls[..|calls| - 1], maxStaleMs), calls[|calls| - 1], maxStaleMs)
  }

  /** What is held is what its log replays to: the snapshot's identity and version, or none, and the highest version. */
  ghost predicate Agrees(h: Held) {
    && (h.snapshot.Some? ==>
          var doc := h.snapshot.value.doc;
          Replayed(h.log) == Some(ContractId(doc.contractId, doc.version, doc.provenance.exportId)))
    && (h.snapshot.None? ==> Replayed(h.log).None?)
    && HighestInstalled(h.log) == h.highestVersion
  }

  lemma {:induction false} ChangeKeepsAgreement(h: Held, change: Change, maxStaleMs: nat)
    requires Agrees(h) && (change.Serves? ==> change.doc.version > h.highestVersion)
    ensures Agrees(Changed(h, change, maxStaleMs)) && |Changed(h, change, maxStaleMs).log| == |h.log| + 1
  {
    var log := Changed(h, change, maxStaleMs).log;
    LogExtends(h.log, log[|h.log|]);
  }

  /** Over every sequence of calls the log holds one record a call, and replaying it gives what is held. */
  lemma {:induction false} LogReplays(d: Deployment, calls: seq<Call>, maxStaleMs: nat)
    ensures Agrees(AfterCalls(d, calls, maxStaleMs)) && |AfterCalls(d, calls, maxStaleMs).log| == |calls|
  {
    if calls != [] {
      var before := AfterCalls(d, calls[..|calls| - 1], maxStaleMs);
      LogReplays(d, calls[..|calls| - 1], maxStaleMs);
      ChangeKeepsAgreement(before, ChangeOf(d, before.highestVersion, calls[|calls| - 1]), maxStaleMs);
    }
  }

  // ---- The cache ----

  class MappingContractCache {
    const deployment: Deployment
    const maxStaleMs: nat
    const ledger: Ledger
    var snapshot: Option<Snapshot>
    var highestVersion: nat
    var log: seq<AuditRecord>

    ghost function Contents(): Held
      reads this
    {
      Held(snapshot, highestVersion, log)
    }

    /** What the cache holds is what its log replays to. */
    ghost predicate LogAgrees()
      reads this
    {
      Agrees(Contents())
    }

    /** The snapshot served is of an accepted document, the highest installed. */
    ghost predicate ServesAccepted()
      reads this
    {
      snapshot.Some? ==>
        Accepted(snapshot.value.doc) && snapshot.value.doc.version == highestVersion &&
        snapshot.value == SnapshotOf(snapshot.value.doc, snapshot.value.installedAt, maxStaleMs)
    }

    ghost predicate Valid()
      reads this, ledger.Repr()
    {
      this !in ledger.Repr() && ledger.Valid() && Strict(deployment) && LogAgrees() && ServesAccepted()
    }

    constructor (deployment: Deployment, maxStaleSeconds: nat, ledger: Ledger)
      requires maxStaleSeconds > 0 && ledger.Valid() && Strict(deployment)
      ensures Valid() && this.deployment == deployment && this.maxStaleMs == maxStaleSeconds * 1000 &&
              this.ledger == ledger
      ensures Contents() == NOTHING_HELD
    {
      this.deployment, this.maxStaleMs, this.ledger := deployment, maxStaleSeconds * 1000, ledger;
      snapshot, highestVersion, log := None, 0, [];
    }

    /** The ledger can be read, locked and written, and its bindings are as an install leaves them. */
    ghost predicate Reachable()
      requires ledger.Valid()
      reads this, ledger.Repr()
    {
      Sound(ledger.State().bindings) && (ledger.Shared? ==> ledger.store.available)
    }

    /** One record of what changes nothing served. */
    method Append(entry: AuditRecord)
      requires Valid() && !entry.InstallRecord? && !entry.InvalidateRecord?
      modifies this`log
      ensures Valid() && log == old(log) + [entry]
      ensures ledger.State() == old(ledger.State())
    {
      LogExtends(log, entry);
      log := log + [entry];
      assert LogAgrees();
      assert ServesAccepted();
    }

    /** What judging and recording `doc` against the ledger as it stands comes to: a refusal, or the ledger after. */
    ghost function Verdict(doc: Document, digest: Digest, at: int): Result<LedgerState, Refusal>
      requires ledger.Valid()
      reads ledger.Repr()
    {
      var d := Judged(deployment.contracts, doc, digest, at, ledger.State());
      Concluded(d, ledger.Outcome(ledger.State(), d.record))
    }

    /** What the ledger refuses an install of `raw` for, if the install reaches it and is refused there. */
    ghost function LedgerRefusal(raw: Json, at: int): Option<Refusal>
      requires ledger.Valid()
      reads this, ledger.Repr()
    {
      var pre := Prechecked(deployment, highestVersion, raw);
      if pre.Err? then None
      else
        var next := Verdict(pre.value, CanonicalDigest(raw), at);
        if next.Err? then Some(next.error) else None
    }

    /** Over a sound ledger that can be reached, of either kind, an install comes to the same attempt. */
    lemma InstallIsAttempt(raw: Json, at: int)
      requires Valid() && Sound(ledger.State().bindings) && (ledger.Shared? ==> ledger.store.available)
      ensures var pre := Prechecked(deployment, highestVersion, raw);
              Attempted(deployment, highestVersion, raw, at, ledger.State()) ==
              if pre.Err? then Err(pre.error)
              else
                var next := Verdict(pre.value, CanonicalDigest(raw), at);
                if next.Err? then Err(next.error) else Ok((pre.value, next.value))
    {
      var pre := Prechecked(deployment, highestVersion, raw);
      if pre.Ok? {
        InstallNeverTripsTheGuards(deployment.contracts, pre.value, CanonicalDigest(raw), at, ledger.State());
      }
    }

    /** The judgement and the record in one commit, under the ledger's lock. */
    method JudgeAndRecord(doc: Document, digest: Digest, at: int) returns (refused: Option<Refusal>)
      requires Valid()
      modifies ledger.Repr()
      ensures Valid()
      ensures var next := old(Verdict(doc, digest, at));
              if next.Err? then refused == Some(next.error) && ledger.State() == old(ledger.State())
              else refused.None? && ledger.State() == next.value
      ensures Accepted(doc) && old(Reachable()) ==>
                && (refused.None? <==> old(Admissible(deployment.contracts, doc, digest, at, ledger.State())))
                && (refused.None? ==> Absorbs(doc, digest, old(ledger.State()), ledger.State()))
                && (refused.Some? ==>
                      old(RefusedFor(deployment.contracts, doc, digest, at, ledger.State(), refused.value)))
    {
      if Accepted(doc) && Reachable() {
        JudgedExactly(deployment.contracts, doc, digest, at, ledger.State());
        InstallNeverTripsTheGuards(deployment.contracts, doc, digest, at, ledger.State());
        if Judged(deployment.contracts, doc, digest, at, ledger.State()).result.None? {
          JudgedAbsorbs(deployment.contracts, doc, digest, at, ledger.State());
        }
      }
      var contracts := deployment.contracts;
      var judged := ledger.Commit(state => Judged(contracts, doc, digest, at, state));
      refused := if judged.Err? then Some(LedgerFailed(judged.error)) else judged.value;
    }

    /** Serve an accepted document above every version served before. */
    method Serve(doc: Document, at: int)
      requires Valid() && Accepted(doc) && doc.version > highestVersion
      modifies this`snapshot, this`highestVersion, this`log
      ensures Valid() && snapshot == Some(SnapshotOf(doc, at, maxStaleMs)) && highestVersion == doc.version
      ensures log == old(log) + [InstallRecord(at, IdOf(doc))]
      ensures ledger.State() == old(ledger.State())
    {
      var served := BuildSnapshot(doc, at, maxStaleMs);
      highestVersion, snapshot := doc.version, Some(served);
      LogExtends(log, InstallRecord(at, IdOf(doc)));
      log := log + [InstallRecord(at, IdOf(doc))];
    }

    /** A document above this cache's version: committed, and only then served. */
    method Admit(doc: Document, digest: Digest, at: int) returns (refused: Option<Refusal>)
      requires Valid() && Accepted(doc) && doc.version > highestVersion
      modifies this`snapshot, this`highestVersion, this`log, ledger.Repr()
      ensures Valid()
      ensures var next := old(Verdict(doc, digest, at));
              if next.Err? then refused == Some(next.error) && ledger.State() == old(ledger.State())
              else refused.None? && ledger.State() == next.value
      ensures old(Reachable()) ==>
                && (refused.None? <==> old(Admissible(deployment.contracts, doc, digest, at, ledger.State())))
                && (refused.None? ==> Absorbs(doc, digest, old(ledger.State()), ledger.State()))
                && (refused.Some? ==>
                      old(RefusedFor(deployment.contracts, doc, digest, at, ledger.State(), refused.value)))
      ensures if refused.Some? then
                snapshot == old(snapshot) && highestVersion == old(highestVersion) &&
                    log == old(log) + [InstallRefused(at, refused.value)]
              else
                snapshot == Some(SnapshotOf(doc, at, maxStaleMs)) && highestVersion == doc.version &&
                log == old(log) + [InstallRecord(at, IdOf(doc))]
    {
      refused := JudgeAndRecord(doc, digest, at);
      if refused.Some? {
        Append(InstallRefused(at, refused.value));
      } else {
        Serve(doc, at);
      }
    }

    /**
     * Install a newer version, or refuse it and say why. A refusal, a fault of
     * the ledger included, leaves the snapshot, the version and the ledger as
     * they were; an acceptance commits first and serves after.
     */
    method Install(raw: Json, at: int) returns (r: Result<nat, Refusal>)
      requires Valid()
      modifies this`snapshot, this`highestVersion, this`log, ledger.Repr()
      ensures Valid()
      ensures var pre := Prechecked(deployment, old(highestVersion), raw);
              if pre.Err? then r == Err(pre.error) && ledger.State() == old(ledger.State())
              else
                var next := old(Verdict(pre.value, CanonicalDigest(raw), at));
                if next.Err? then r == Err(next.error) && ledger.State() == old(ledger.State())
                else r == Ok(pre.value.version) && ledger.State() == next.value &&
                     snapshot == Some(SnapshotOf(pre.value, at, maxStaleMs)) && highestVersion == pre.value.version &&
                     log == old(log) + [InstallRecord(at, IdOf(pre.value))]
      ensures r.Err? ==> snapshot == old(snapshot) && highestVersion == old(highestVersion) &&
                         log == old(log) + [InstallRefused(at, r.error)]
      ensures Contents() ==
              Called(deployment, old(Contents()), InstallCall(raw, at, old(LedgerRefusal(raw, at))), maxStaleMs)
      ensures old(Reachable()) ==>
                && (r.Ok? <==> old(Installable(deployment, highestVersion, raw, at, ledger.State())))
                && (r.Ok? ==>
                      Absorbs(deployment.load(raw).value, CanonicalDigest(raw), old(ledger.State()), ledger.State()))
                && (r.Err? ==> old(InstallRefusedFor(deployment, highestVersion, raw, at, ledger.State(), r.error)))
    {
      InstallCalled(deployment, Contents(), raw, at, LedgerRefusal(raw, at), maxStaleMs);
      var pre := Prechecked(deployment, highestVersion, raw);
      if pre.Err? {
        Append(InstallRefused(at, pre.error));
        return Err(pre.error);
      }
      var refused := Admit(pre.value, CanonicalDigest(raw), at);
      return if refused.Some? then Err(refused.value) else Ok(pre.value.version);
    }

    method DropSnapshot(entry: AuditRecord)
      requires Valid() && entry.InvalidateRecord?
      modifies this`snapshot, this`log
      ensures Valid() && snapshot == None && log == old(log) + [entry]
      ensures ledger.State() == old(ledger.State())
    {
      LogExtends(log, entry);
      snapshot, log := None, log + [entry];
      assert LogAgrees();
      assert ServesAccepted();
    }

    /** Drop the snapshot: everything fails closed until the next install. */
    method Invalidate(at: int)
      requires Valid()
      modifies this`snapshot, this`log
      ensures Valid() && Contents() == Called(deployment, old(Contents()), InvalidateCall(at), maxStaleMs)
      ensures snapshot == None && log == old(log) + [InvalidateRecord(at)]
    {
      DropSnapshot(InvalidateRecord(at));
    }

    /**
     * One identity decision through what `current()` handed out, now or
     * earlier: a snapshot or, with none installed, nothing. It answers by that
     * snapshot alone and appends one record to this cache's log.
     */
    method ResolveIdentity(handed: Option<Snapshot>, subject: Identity, client: Identity, missionIssuer: string,
                           now: int)
      returns (to: Option<Resolution>)
      requires Valid()
      modifies this`log
      ensures Valid()
      ensures to == if handed.None? then None
                    else
                      var outcome := Resolve(handed.value, subject, client, missionIssuer, now);
                      if outcome.Resolved? then Some(outcome.to) else None
      ensures Contents() ==
              Called(deployment, old(Contents()), ResolveCall(handed, subject, client, missionIssuer, now), maxStaleMs)
      ensures handed.None? ==>
                log == old(log) + [IdentityRecord(now, None, subject, client, missionIssuer, NoSnapshot)]
      ensures handed.Some? ==>
                var doc := handed.value.doc;
                var id := ContractId(doc.contractId, doc.version, doc.provenance.exportId);
                var outcome := Decided(Resolve(handed.value, subject, client, missionIssuer, now));
                log == old(log) + [IdentityRecord(now, Some(id), subject, client, missionIssuer, outcome)]
    {
      DecisionCalled(deployment, Contents(), handed, subject, client, missionIssuer, now, maxStaleMs);
      if handed.None? {
        Append(IdentityRecord(now, None, subject, client, missionIssuer, NoSnapshot));
        return None;
      }
      var outcome := Resolve(handed.value, subject, client, missionIssuer, now);
      Append(IdentityRecord(now, Some(IdOf(handed.value.doc)), subject, client, missionIssuer, Decided(outcome)));
      return if outcome.Resolved? then Some(outcome.to) else None;
    }
  }
}
