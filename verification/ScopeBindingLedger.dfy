/**
 * The scope binding ledger: each issuer's scope value bound once to a contract
 * or to none, and the mapping's version high-water mark, in memory or in the
 * tables of a shared store.
 */
module ScopeBindingLedger {
  import opened Wrappers
  import opened Json
  import opened ResourceContracts

  datatype ScopeBinding = ScopeBinding(issuer: string, scope: string, resource: string, contract: Option<ContractRef>)

  datatype Key = Key(issuer: string, scope: string)

  datatype HighWater = HighWater(version: nat, digest: Digest)

  datatype LedgerState = LedgerState(bindings: seq<ScopeBinding>, highWater: Option<HighWater>)

  /** What an install records: bindings not yet recorded, and perhaps a raised high-water mark. */
  datatype Record = Record(bindings: seq<ScopeBinding>, highWater: Option<HighWater>)

  datatype Decision<+T> = Decision(result: T, record: Option<Record>)

  datatype LedgerFault = AlreadyRecorded(key: Key) | HighWaterFalls | VersionBelowOne | MalformedReference(key: Key)
    | Unavailable

  const EMPTY_LEDGER := LedgerState([], None)

  function KeyOf(b: ScopeBinding): Key {
    Key(b.issuer, b.scope)
  }

  /** The same contract, or both none. */
  predicate SameBinding(a: ScopeBinding, b: ScopeBinding): (same: bool)
    ensures same <==> a.contract == b.contract && (a.contract.Some? ==> WellFormed(a.contract.value))
  {
    if a.contract.None? || b.contract.None? then a.contract == b.contract
    else SameContract(a.contract.value, b.contract.value)
  }

  function Find(bindings: seq<ScopeBinding>, key: Key): (b: Option<ScopeBinding>)
    ensures b.Some? <==> exists i :: 0 <= i < |bindings| && KeyOf(bindings[i]) == key
    ensures b.Some? ==> b.value in bindings && KeyOf(b.value) == key
  {
    if bindings == [] then None
    else if KeyOf(bindings[0]) == key then Some(bindings[0])
    else
      var rest := Find(bindings[1..], key);
      assert forall i :: 1 <= i < |bindings| ==> bindings[i] == bindings[1..][i - 1];
      rest
  }

  ghost predicate DistinctBindings(bindings: seq<ScopeBinding>) {
    forall i, j :: 0 <= i < j < |bindings| ==> KeyOf(bindings[i]) != KeyOf(bindings[j])
  }

  /** The mark is absent, rises, or stands with the same document. */
  predicate Raises(was: Option<HighWater>, next: HighWater) {
    was.None? || next.version > was.value.version || next == was.value
  }

  /** Each new binding appended in turn, unless its key is taken: the specification of both insert loops. */
  function Appended(bindings: seq<ScopeBinding>, more: seq<ScopeBinding>): (r: Result<seq<ScopeBinding>, LedgerFault>)
    ensures r.Ok? ==> r.value == bindings + more
    decreases |more|
  {
    if more == [] then Ok(bindings)
    else if Find(bindings, KeyOf(more[0])).Some? then Err(AlreadyRecorded(KeyOf(more[0])))
    else Appended(bindings + [more[0]], more[1..])
  }

  /** The abstract ledger: append-only and all or nothing. */
  function Recorded(state: LedgerState, record: Record): Result<LedgerState, LedgerFault> {
    var bindings :- Appended(state.bindings, record.bindings);
    if record.highWater.None? then Ok(LedgerState(bindings, state.highWater))
    else if !Raises(state.highWater, record.highWater.value) then Err(HighWaterFalls)
    else Ok(LedgerState(bindings, record.highWater))
  }

  function Committed(state: LedgerState, record: Option<Record>): Result<LedgerState, LedgerFault> {
    if record.None? then Ok(state) else Recorded(state, record.value)
  }

  /** What the tables hold beyond the abstract ledger's own rules: a version of at least one. */
  function TablesCommitted(state: LedgerState, record: Option<Record>): Result<LedgerState, LedgerFault> {
    if record.Some? && record.value.highWater.Some? && record.value.highWater.value.version < 1 &&
       Appended(state.bindings, record.value.bindings).Ok?
    then Err(VersionBelowOne)
    else Committed(state, record)
  }

  /** Each binding has its own key and, where it states a contract, a well-formed one. */
  ghost predicate Sound(bindings: seq<ScopeBinding>) {
    && DistinctBindings(bindings)
    && forall i :: 0 <= i < |bindings| && bindings[i].contract.Some? ==> WellFormed(bindings[i].contract.value)
  }

  lemma {:induction false} FindInExtension(bindings: seq<ScopeBinding>, more: seq<ScopeBinding>, key: Key)
    ensures Find(bindings + more, key) == if Find(bindings, key).Some? then Find(bindings, key) else Find(more, key)
  {
    if bindings == [] {
      assert bindings + more == more;
    } else {
      assert (bindings + more)[1..] == bindings[1..] + more;
      FindInExtension(bindings[1..], more, key);
    }
  }

  lemma {:induction false} FindInDistinct(bindings: seq<ScopeBinding>, i: nat)
    requires DistinctBindings(bindings) && i < |bindings|
    ensures Find(bindings, KeyOf(bindings[i])) == Some(bindings[i])
  {
    if i > 0 {
      FindInDistinct(bindings[1..], i - 1);
    }
  }

  /** Bindings under fresh, distinct keys are all appended; one repeated key anywhere appends none. */
  lemma {:induction false} AppendedIff(bindings: seq<ScopeBinding>, more: seq<ScopeBinding>)
    requires DistinctBindings(bindings)
    ensures Appended(bindings, more).Ok? <==> DistinctBindings(bindings + more)
    decreases |more|
  {
    if more == [] {
      assert bindings + more == bindings;
    } else {
      var next := bindings + [more[0]];
      assert next + more[1..] == bindings + more;
      if Find(bindings, KeyOf(more[0])).None? {
        AppendedIff(next, more[1..]);
      } else {
        var i :| 0 <= i < |bindings| && KeyOf(bindings[i]) == KeyOf(more[0]);
        assert (bindings + more)[i] == bindings[i] && (bindings + more)[|bindings|] == more[0];
      }
    }
  }

  /** No mark, a lower one, or the same version with the same document. */
  ghost predicate MarkMayBecome(was: Option<HighWater>, next: HighWater) {
    was.None? || was.value.version < next.version ||
    (was.value.version == next.version && was.value.digest == next.digest)
  }

  /**
   * A record commits exactly when no key is taken or repeated and the mark
   * neither falls nor changes in place; then the bindings follow those there,
   * the mark is the one stated, if one is, and nothing else changes.
   */
  lemma CommittedExactly(state: LedgerState, record: Record)
    requires DistinctBindings(state.bindings)
    ensures var r := Committed(state, Some(record));
            && (r.Ok? <==> DistinctBindings(state.bindings + record.bindings) &&
                           (record.highWater.Some? ==> MarkMayBecome(state.highWater, record.highWater.value)))
            && (r.Ok? ==>
                  && r.value.bindings == state.bindings + record.bindings
                  && r.value.highWater == (if record.highWater.Some? then record.highWater else state.highWater))
            && (r.Err? ==>
                  if DistinctBindings(state.bindings + record.bindings) then r.error == HighWaterFalls
                  else r.error.AlreadyRecorded?)
    ensures Committed(state, None) == Ok(state)
  {
    AppendedIff(state.bindings, record.bindings);
    AppendedRefuses(state.bindings, record.bindings);
  }

  lemma {:induction false} AppendedRefuses(bindings: seq<ScopeBinding>, more: seq<ScopeBinding>)
    ensures Appended(bindings, more).Err? ==> Appended(bindings, more).error.AlreadyRecorded?
    decreases |more|
  {
    if more != [] {
      AppendedRefuses(bindings + [more[0]], more[1..]);
    }
  }

  /** A commit never loses, changes or reorders a binding, never lowers the mark, and keeps one binding a key. */
  lemma CommitOnlyAppends(state: LedgerState, record: Option<Record>)
    requires DistinctBindings(state.bindings) && Committed(state, record).Ok?
    ensures var next := Committed(state, record).value;
            && state.bindings <= next.bindings && DistinctBindings(next.bindings)
            && (state.highWater.Some? ==>
                next.highWater.Some? && next.highWater.value.version >= state.highWater.value.version)
            && (state.highWater.Some? && next.highWater.value.version == state.highWater.value.version ==>
                  next.highWater == state.highWater)
  {
    if record.Some? {
      AppendedIff(state.bindings, record.value.bindings);
    }
  }

  /** The ledger in memory. A copy is extended, and replaces the map only once nothing has thrown. */
  class MemoryLedger {
    var bindings: seq<ScopeBinding>
    var highWater: Option<HighWater>

    constructor ()
      ensures State() == EMPTY_LEDGER
    {
      bindings, highWater := [], None;
    }

    function State(): LedgerState
      reads this
    {
      LedgerState(bindings, highWater)
    }

    method Commit<T>(decide: LedgerState -> Decision<T>) returns (r: Result<T, LedgerFault>)
      modifies this
      ensures var d := decide(old(State()));
              var next := Committed(old(State()), d.record);
              if next.Ok? then r == Ok(d.result) && State() == next.value
              else r == Err(next.error) && State() == old(State())
    {
      var decision := decide(State());
      if decision.record.None? {
        return Ok(decision.result);
      }
      var record := decision.record.value;
      var next := bindings;
      for i := 0 to |record.bindings|
        invariant State() == old(State())
        invariant Appended(bindings, record.bindings) == Appended(next, record.bindings[i..])
      {
        var b := record.bindings[i];
        assert record.bindings[i..][1..] == record.bindings[i + 1..];
        if Find(next, KeyOf(b)).Some? {
          return Err(AlreadyRecorded(KeyOf(b)));
        }
        next := next + [b];
      }
      if record.highWater.Some? && !Raises(highWater, record.highWater.value) {
        return Err(HighWaterFalls);
      }
      bindings := next;
      if record.highWater.Some? {
        highWater := record.highWater;
      }
      return Ok(decision.result);
    }
  }

  /** A row of `scope_binding`: the three contract columns are all null or none is. */
  datatype BindingRow = BindingRow(issuer: string, scope: string, resource: string,
                                   contractId: Option<string>, contractVersion: Option<string>,
                                       contractDigest: Option<string>)

  predicate ColumnsAgree(row: BindingRow) {
    row.contractId.None? == row.contractVersion.None? && row.contractId.None? == row.contractDigest.None?
  }

  function BindingOf(row: BindingRow): ScopeBinding
    requires ColumnsAgree(row)
  {
    ScopeBinding(row.issuer, row.scope, row.resource,
                 if row.contractId.None? then None
                 else Some(ContractRef(row.contractId.value, row.contractVersion.value, row.contractDigest.value)))
  }

  function RowOf(b: ScopeBinding): (row: BindingRow)
    ensures ColumnsAgree(row) && BindingOf(row) == b
  {
    if b.contract.None? then BindingRow(b.issuer, b.scope, b.resource, None, None, None)
    else
      var ref := b.contract.value;
      BindingRow(b.issuer, b.scope, b.resource, Some(ref.id), Some(ref.version), Some(ref.digest))
  }

  function BindingsOf(rows: seq<BindingRow>): (bindings: seq<ScopeBinding>)
    requires forall i :: 0 <= i < |rows| ==> ColumnsAgree(rows[i])
    ensures |bindings| == |rows| && forall i :: 0 <= i < |rows| ==> bindings[i] == BindingOf(rows[i])
  {
    if rows == [] then [] else BindingsOf(rows[..|rows| - 1]) + [BindingOf(rows[|rows| - 1])]
  }

  predicate ReadsBack(b: ScopeBinding) {
    b.contract.Some? ==> WellFormed(b.contract.value)
  }

  /** The first recorded binding whose reference is malformed: reading the tables throws at it. */
  function FirstMalformed(bindings: seq<ScopeBinding>): (m: Option<Key>)
    ensures m.None? <==> forall i :: 0 <= i < |bindings| ==> ReadsBack(bindings[i])
  {
    if bindings == [] then None
    else if !ReadsBack(bindings[0]) then Some(KeyOf(bindings[0]))
    else
      var m := FirstMalformed(bindings[1..]);
      assert forall i :: 1 <= i < |bindings| ==> bindings[i] == bindings[1..][i - 1];
      m
  }

  /**
   * One commit of the shared store: a transaction over the tables as they stand, refused while the file is unavailable.
   */
  function StoreOutcome(state: LedgerState, available: bool, record: Option<Record>): Result<LedgerState, LedgerFault> {
    if !available then Err(Unavailable)
    else if FirstMalformed(state.bindings).Some? then Err(MalformedReference(FirstMalformed(state.bindings).value))
    else TablesCommitted(state, record)
  }

  /** The shared store commits exactly what can be read and what the tables' keys, check and trigger let through. */
  lemma StoredExactly(state: LedgerState, available: bool, record: Record)
    requires DistinctBindings(state.bindings)
    ensures var r := StoreOutcome(state, available, Some(record));
            && (r.Ok? <==>
                  && available
                  && (forall i :: 0 <= i < |state.bindings| && state.bindings[i].contract.Some? ==>
                        WellFormed(state.bindings[i].contract.value))
                  && DistinctBindings(state.bindings + record.bindings)
                  && (record.highWater.Some? ==> record.highWater.value.version >= 1 &&
                                                 MarkMayBecome(state.highWater, record.highWater.value)))
            && (r.Ok? ==>
                  && r.value.bindings == state.bindings + record.bindings
                  && r.value.highWater == (if record.highWater.Some? then record.highWater else state.highWater))
            && (!available ==> r == Err(Unavailable))
            && (r.Err? && r.error.MalformedReference? ==>
                  exists i :: 0 <= i < |state.bindings| && !ReadsBack(state.bindings[i]))
            && (available && (exists i :: 0 <= i < |state.bindings| && !ReadsBack(state.bindings[i])) ==>
                  r.Err? && r.error.MalformedReference?)
  {
    CommittedExactly(state, record);
    AppendedIff(state.bindings, record.bindings);
  }

  lemma AddedRow(rows: seq<BindingRow>, b: ScopeBinding)
    requires forall i :: 0 <= i < |rows| ==> ColumnsAgree(rows[i])
    ensures BindingsOf(rows + [RowOf(b)]) == BindingsOf(rows) + [b]
  {
    assert (rows + [RowOf(b)])[..|rows|] == rows;
  }

  /** `read`: the rows as bindings, refusing a malformed reference. */
  method ReadRows(rows: seq<BindingRow>) returns (r: Result<seq<ScopeBinding>, LedgerFault>)
    requires forall i :: 0 <= i < |rows| ==> ColumnsAgree(rows[i])
    ensures var malformed := FirstMalformed(BindingsOf(rows));
            r == if malformed.Some? then Err(MalformedReference(malformed.value)) else Ok(BindingsOf(rows))
  {
    var bindings: seq<ScopeBinding> := [];
    for i := 0 to |rows|
      invariant bindings == BindingsOf(rows)[..i]
      invariant forall k :: 0 <= k < i ==> ReadsBack(bindings[k])
    {
      var b := BindingOf(rows[i]);
      if !ReadsBack(b) {
        FirstMalformedAt(BindingsOf(rows), i);
        return Err(MalformedReference(KeyOf(b)));
      }
      bindings := bindings + [b];
    }
    assert bindings == BindingsOf(rows);
    return Ok(bindings);
  }

  lemma {:induction false} FirstMalformedAt(bindings: seq<ScopeBinding>, i: nat)
    requires i < |bindings| && !ReadsBack(bindings[i]) && forall k :: 0 <= k < i ==> ReadsBack(bindings[k])
    ensures FirstMalformed(bindings) == Some(KeyOf(bindings[i]))
  {
    if i > 0 {
      FirstMalformedAt(bindings[1..], i - 1);
    }
  }

  /** `write`'s inserts, each under the primary key (issuer, scope). */
  method InsertRows(rows: seq<BindingRow>, more: seq<ScopeBinding>) returns (r: Result<seq<BindingRow>, LedgerFault>)
    requires forall i :: 0 <= i < |rows| ==> ColumnsAgree(rows[i])
    ensures r.Ok? ==> forall i :: 0 <= i < |r.value| ==> ColumnsAgree(r.value[i])
    ensures Appended(BindingsOf(rows), more) == if r.Ok? then Ok(BindingsOf(r.value)) else Err(r.error)
  {
    var table := rows;
    assert more[0..] == more;
    for i := 0 to |more|
      invariant forall k :: 0 <= k < |table| ==> ColumnsAgree(table[k])
      invariant Appended(BindingsOf(rows), more) == Appended(BindingsOf(table), more[i..])
    {
      var b := more[i];
      assert more[i..][0] == b && more[i..][1..] == more[i + 1..];
      assert forall k :: 0 <= k < |table| ==> KeyOf(BindingsOf(table)[k]) == Key(table[k].issuer, table[k].scope);
      if exists k :: 0 <= k < |table| && Key(table[k].issuer, table[k].scope) == KeyOf(b) {
        return Err(AlreadyRecorded(KeyOf(b)));
      }
      AddedRow(table, b);
      table := table + [RowOf(b)];
    }
    return Ok(table);
  }

  /** The ledger in a shared store's two tables, under their keys, checks and triggers. */
  class SqliteLedger {
    var rows: seq<BindingRow>
    var mark: Option<HighWater>
    /** Whether the file can be read, locked and written: the environment's, not the ledger's, to change. */
    var available: bool

    ghost predicate Valid()
      reads this
    {
      forall i :: 0 <= i < |rows| ==> ColumnsAgree(rows[i])
    }

    constructor ()
      ensures Valid() && State() == EMPTY_LEDGER && available
    {
      rows, mark, available := [], None, true;
    }

    ghost function State(): LedgerState
      requires Valid()
      reads this
    {
      LedgerState(BindingsOf(rows), mark)
    }

    /** `read`, `decide` and `write` in one transaction: a fault anywhere rolls the tables back. */
    method Commit<T>(decide: LedgerState -> Decision<T>) returns (r: Result<T, LedgerFault>)
      requires Valid()
      modifies this`rows, this`mark
      ensures Valid()
      ensures var d := decide(old(State()));
              var next := StoreOutcome(old(State()), available, d.record);
              if next.Ok? then r == Ok(d.result) && State() == next.value
              else r == Err(next.error) && State() == old(State())
    {
      if !available {
        return Err(Unavailable);
      }
      var bindings := ReadRows(rows);
      if bindings.Err? {
        return Err(bindings.error);
      }
      var decision := decide(LedgerState(bindings.value, mark));
      if decision.record.None? {
        return Ok(decision.result);
      }
      var record := decision.record.value;
      var table := InsertRows(rows, record.bindings);
      if table.Err? {
        return Err(table.error);
      }
      if record.highWater.Some? {
        var next := record.highWater.value;
        // CHECK (version >= 1), then the trigger before an update.
        if next.version < 1 {
          return Err(VersionBelowOne);
        }
        if mark.Some? && (next.version < mark.value.version ||
                          (next.version == mark.value.version && next.digest != mark.value.digest)) {
          return Err(HighWaterFalls);
        }
        mark := record.highWater;
      }
      rows := table.value;
      return Ok(decision.result);
    }
  }

  /** Either ledger, as a cache is handed one. */
  datatype Ledger = Memory(memory: MemoryLedger) | Shared(store: SqliteLedger) {
    ghost function Repr(): set<object> {
      match this
      case Memory(m) => {m}
      case Shared(s) => {s}
    }

    ghost predicate Valid()
      reads Repr()
    {
      Shared? ==> store.Valid()
    }

    ghost function State(): LedgerState
      requires Valid()
      reads Repr()
    {
      match this
      case Memory(m) => m.State()
      case Shared(s) => s.State()
    }

    /** What a commit handing over `record` in `state` comes to. */
    ghost function Outcome(state: LedgerState, record: Option<Record>): Result<LedgerState, LedgerFault>
      reads Repr()
    {
      match this
      case Memory(m) => Committed(state, record)
      case Shared(s) => StoreOutcome(state, s.available, record)
    }

    method Commit<T>(decide: LedgerState -> Decision<T>) returns (r: Result<T, LedgerFault>)
      requires Valid()
      modifies Repr()
      ensures Valid()
      ensures Shared? ==> store.available == old(store.available)
      ensures var d := decide(old(State()));
              var next := Outcome(old(State()), d.record);
              if next.Ok? then r == Ok(d.result) && State() == next.value
              else r == Err(next.error) && State() == old(State())
    {
      match this
      case Memory(m) => r := m.Commit(decide);
      case Shared(s) => r := s.Commit(decide);
    }
  }

  /** Over sound bindings and a mark of at least one, an available store and the memory ledger answer alike. */
  lemma LedgersAgree(state: LedgerState, record: Option<Record>)
    requires Sound(state.bindings)
    requires record.Some? && record.value.highWater.Some? ==> record.value.highWater.value.version >= 1
    ensures StoreOutcome(state, true, record) == Committed(state, record)
  {
  }
}
