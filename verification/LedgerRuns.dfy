/**
 * Whole runs: any number of caches, in any processes, over one ledger, with
 * every interleaving of commits, publications, invalidations and crashes.
 */
module LedgerRuns {
  import opened Wrappers
  import opened Json
  import opened ResourceContracts
  import opened MappingContract
  import opened MappingSnapshot
  import opened ScopeBindingLedger
  import opened MappingCache
  import opened LoadedDocuments

  /** An accepted install, at its commit. */
  datatype Acceptance = Acceptance(cache: nat, doc: Document, digest: Digest, at: int)

  /** One cache. Between its commit and the snapshot it then serves, what it committed is `pending`. */
  datatype Cache = Cache(maxStaleMs: nat, highestVersion: nat, snapshot: Option<Snapshot>, pending: Option<Acceptance>,
                         alive: bool)

  /**
   * The ledger with its history: the acceptances in commit order, and the one
   * that raised the high-water mark to where it stands.
   */
  datatype History = History(ledger: LedgerState, accepted: seq<Acceptance>, newest: Option<Acceptance>)

  /** The ledger, the caches over it, and every snapshot ever served. */
  datatype World = World(history: History, caches: seq<Cache>, served: seq<Snapshot>)

  datatype Event =
    | Open(maxStaleMs: nat)
    | Commit(cache: nat, raw: Json, at: int)
    | Publish(cache: nat)
    | Invalidate(cache: nat)
    | Crash(cache: nat)

  const START := World(History(EMPTY_LEDGER, [], None), [], [])

  predicate Ready(w: World, c: nat) {
    c < |w.caches| && w.caches[c].alive && w.caches[c].pending.None?
  }

  /** An acceptance joins the history with the ledger it leaves. */
  function Extended(h: History, a: Acceptance, ledger: LedgerState): History {
    History(ledger, h.accepted + [a], if ledger.highWater != h.ledger.highWater then Some(a) else h.newest)
  }

  /** What a cache committed becomes its version and the snapshot it serves. */
  function Published(w: World, c: nat): World
    requires c < |w.caches| && w.caches[c].pending.Some?
  {
    var cache, a := w.caches[c], w.caches[c].pending.value;
    var s := SnapshotOf(a.doc, a.at, cache.maxStaleMs);
    w.(caches := w.caches[c := Cache(cache.maxStaleMs, a.doc.version, Some(s), None, cache.alive)],
       served := w.served + [s])
  }

  function Next(d: Deployment, w: World, e: Event): World {
    match e
    case Open(maxStaleMs) => w.(caches := w.caches + [Cache(maxStaleMs, 0, None, None, true)])
    case Commit(c, raw, at) =>
      if !Ready(w, c) then w
      else
        var attempt := Attempted(d, w.caches[c].highestVersion, raw, at, w.history.ledger);
        if attempt.Err? then w
        else
          var a := Acceptance(c, attempt.value.0, CanonicalDigest(raw), at);
          w.(history := Extended(w.history, a, attempt.value.1),
             caches := w.caches[c := w.caches[c].(pending := Some(a))])
    case Publish(c) =>
      if c < |w.caches| && w.caches[c].alive && w.caches[c].pending.Some? then Published(w, c) else w
    case Invalidate(c) =>
      if !Ready(w, c) then w else w.(caches := w.caches[c := w.caches[c].(snapshot := None)])
    case Crash(c) =>
      if c >= |w.caches| then w
      else w.(caches := w.caches[c := w.caches[c].(snapshot := None, pending := None, alive := false)])
  }

  function Run(d: Deployment, events: seq<Event>): World {
    if events == [] then START else Next(d, Run(d, events[..|events| - 1]), events[|events| - 1])
  }

  // ---- What every run keeps ----

  /** Every scope value `doc` maps is recorded under the contract it states there. */
  ghost predicate AllRecorded(doc: Document, bindings: seq<ScopeBinding>) {
    forall key :: MapsScope(doc, key) ==>
      Find(bindings, key).Some? && Find(bindings, key).value.contract == ScopeValue(doc, key).value.contract
  }

  /** Each acceptance is of a document the loader gives, with all its scope values recorded. */
  ghost predicate HistoryRecorded(d: Deployment, h: History) {
    forall i :: 0 <= i < |h.accepted| ==>
      d.load(h.accepted[i].digest.document) == Ok(h.accepted[i].doc) &&
          AllRecorded(h.accepted[i].doc, h.ledger.bindings)
  }

  /** Versions never fall in commit order, strictly rise within a cache, and one version is one document. */
  ghost predicate VersionsRise(accepted: seq<Acceptance>) {
    forall i, j :: 0 <= i < j < |accepted| ==>
      && accepted[i].doc.version <= accepted[j].doc.version
      && (accepted[i].doc.version == accepted[j].doc.version ==> accepted[i].digest == accepted[j].digest)
      && (accepted[i].cache == accepted[j].cache ==> accepted[i].doc.version < accepted[j].doc.version)
  }

  /** No earlier acceptance has `a`'s version. */
  ghost predicate FirstOfItsVersion(accepted: seq<Acceptance>, a: Acceptance) {
    exists i :: 0 <= i < |accepted| && accepted[i] == a &&
      forall j :: 0 <= j < i ==> accepted[j].doc.version < a.doc.version
  }

  /** The mark is the last acceptance's, raised there by `newest`, the first of that version. */
  ghost predicate MarkIsLast(h: History) {
    if h.accepted == [] then h.ledger.highWater.None? && h.newest.None?
    else
      var last := h.accepted[|h.accepted| - 1];
      && h.ledger.highWater == Some(HighWater(last.doc.version, last.digest))
      && h.newest.Some? && h.newest.value in h.accepted && FirstOfItsVersion(h.accepted, h.newest.value)
      && h.newest.value.doc == last.doc && h.newest.value.digest == last.digest
  }

  /** A recorded value the newest document leaves out had lapsed when it was accepted. */
  ghost predicate LeavesOutOnlyLapsed(d: Deployment, h: History) {
    h.newest.Some? ==>
      forall i :: 0 <= i < |h.ledger.bindings| ==>
        MapsScope(h.newest.value.doc, KeyOf(h.ledger.bindings[i])) ||
        Lapsed(d.contracts, h.ledger.bindings[i], h.newest.value.at)
  }

  ghost predicate HistoryInv(d: Deployment, h: History) {
    Sound(h.ledger.bindings) && HistoryRecorded(d, h) && VersionsRise(h.accepted) && MarkIsLast(h) &&
        LeavesOutOnlyLapsed(d, h)
  }

  /** The version a cache's next install must exceed, a commit not yet published included. */
  function Reached(cache: Cache): nat {
    if cache.pending.Some? then cache.pending.value.doc.version else cache.highestVersion
  }

  ghost predicate CachesFollow(w: World) {
    forall i :: 0 <= i < |w.history.accepted| ==>
      var a := w.history.accepted[i];
      a.cache < |w.caches| && (w.caches[a.cache].alive ==> a.doc.version <= Reached(w.caches[a.cache]))
  }

  ghost predicate PendingAccepted(w: World) {
    forall c :: 0 <= c < |w.caches| && w.caches[c].pending.Some? ==> w.caches[c].pending.value in w.history.accepted
  }

  ghost predicate ServedFrom(accepted: seq<Acceptance>, s: Snapshot) {
    exists a :: a in accepted && s == SnapshotOf(a.doc, a.at, s.maxStaleMs)
  }

  /** Only accepted documents were ever served. */
  ghost predicate ServesHistory(w: World) {
    forall s :: s in w.served ==> ServedFrom(w.history.accepted, s)
  }

  ghost predicate Inv(d: Deployment, w: World) {
    HistoryInv(d, w.history) && CachesFollow(w) && PendingAccepted(w) && ServesHistory(w)
  }

  // ---- One commit ----

  /** Recorded bindings stay found, so a document's values stay recorded. */
  lemma StaysRecorded(doc: Document, bindings: seq<ScopeBinding>, more: seq<ScopeBinding>)
    requires AllRecorded(doc, bindings)
    ensures AllRecorded(doc, bindings + more)
  {
    forall key | MapsScope(doc, key)
      ensures Find(bindings + more, key) == Find(bindings, key)
    {
      FindInExtension(bindings, more, key);
    }
  }

  /** A document whose values are all recorded adds nothing. */
  lemma RecordedAddsNothing(doc: Document, bindings: seq<ScopeBinding>)
    requires AllRecorded(doc, bindings)
    ensures Unrecorded(bindings, ScopeBindingsOf(doc)) == []
  {
    var more := Unrecorded(bindings, ScopeBindingsOf(doc));
    if more != [] {
      var b := more[0];
      assert b in ScopeBindingsOf(doc) && Find(bindings, KeyOf(b)).None?;
      CollectedIsMapped(doc, b);
    }
  }

  /** Where all of a document's values are recorded as it states them, it repoints none. */
  lemma NoneRepointed(doc: Document, bindings: seq<ScopeBinding>)
    requires Accepted(doc) && AllRecorded(doc, bindings)
    ensures FirstRepointed(bindings, ScopeBindingsOf(doc)).None?
  {
    var incoming := ScopeBindingsOf(doc);
    CollectedAreSound(doc);
    forall i | 0 <= i < |incoming|
      ensures !Repointed(bindings, incoming[i])
    {
      CollectedIsMapped(doc, incoming[i]);
      assert MapsScope(doc, KeyOf(incoming[i]));
    }
  }

  /** With none repointed, adding the unrecorded ones records them all as the document states them. */
  lemma NotRepointedIsRecorded(doc: Document, bindings: seq<ScopeBinding>)
    requires Accepted(doc) && FirstRepointed(bindings, ScopeBindingsOf(doc)).None?
    ensures AllRecorded(doc, bindings + Unrecorded(bindings, ScopeBindingsOf(doc)))
  {
    var incoming := ScopeBindingsOf(doc);
    var more := Unrecorded(bindings, incoming);
    CollectedAreSound(doc);
    forall key | MapsScope(doc, key)
      ensures Find(bindings + more, key).Some? &&
              Find(bindings + more, key).value.contract == ScopeValue(doc, key).value.contract
    {
      CollectedExactly(doc, key);
      var b := Find(incoming, key).value;
      FindInExtension(bindings, more, key);
      if Find(bindings, key).Some? {
        assert !Repointed(bindings, b);
      } else {
        var i :| 0 <= i < |more| && more[i] == b;
        FindInDistinct(more, i);
      }
    }
  }

  /**
   * What an acceptance adds to a history: its own values recorded, nothing before changed, and only lapsed values left
   * out.
   */
  ghost predicate Adds(d: Deployment, h: History, a: Acceptance, more: seq<ScopeBinding>, ledger: LedgerState) {
    && d.load(a.digest.document) == Ok(a.doc)
    && ledger.bindings == h.ledger.bindings + more && Sound(ledger.bindings) && AllRecorded(a.doc, ledger.bindings)
    && ledger.highWater == Some(HighWater(a.doc.version, a.digest))
    && (h.ledger.highWater.Some? ==> a.doc.version >= h.ledger.highWater.value.version)
    && (h.ledger.highWater.Some? && a.doc.version == h.ledger.highWater.value.version ==> ledger == h.ledger)
    && (forall i :: 0 <= i < |more| ==> MapsScope(a.doc, KeyOf(more[i])))
    && (forall i :: 0 <= i < |h.ledger.bindings| ==>
          MapsScope(a.doc, KeyOf(h.ledger.bindings[i])) || Lapsed(d.contracts, h.ledger.bindings[i], a.at))
  }

  lemma JudgementAdds(d: Deployment, h: History, doc: Document, raw: Json, at: int, c: nat)
    requires Strict(d) && HistoryInv(d, h) && d.load(raw) == Ok(doc)
    requires Judged(d.contracts, doc, CanonicalDigest(raw), at, h.ledger).result.None?
    ensures var next := Committed(h.ledger, Judged(d.contracts, doc, CanonicalDigest(raw), at, h.ledger).record);
            var more := Unrecorded(h.ledger.bindings, ScopeBindingsOf(doc));
            next.Ok? && Adds(d, h, Acceptance(c, doc, CanonicalDigest(raw), at), more, next.value)
  {
    var incoming := ScopeBindingsOf(doc);
    var more := Unrecorded(h.ledger.bindings, incoming);
    InstallNeverTripsTheGuards(d.contracts, doc, CanonicalDigest(raw), at, h.ledger);
    NotRepointedIsRecorded(doc, h.ledger.bindings);
    if h.ledger.highWater.Some? && doc.version == h.ledger.highWater.value.version {
      assert doc == h.newest.value.doc;
      RecordedAddsNothing(doc, h.ledger.bindings);
    }
    forall i | 0 <= i < |more|
      ensures MapsScope(doc, KeyOf(more[i]))
    {
      assert more[i] in incoming;
      CollectedIsMapped(doc, more[i]);
    }
    forall i | 0 <= i < |h.ledger.bindings|
      ensures MapsScope(doc, KeyOf(h.ledger.bindings[i])) || Lapsed(d.contracts, h.ledger.bindings[i], at)
    {
      CollectedExactly(doc, KeyOf(h.ledger.bindings[i]));
      assert !Withdrawn(d.contracts, incoming, h.ledger.bindings[i], at);
    }
  }

  lemma AttemptAdds(d: Deployment, h: History, highestVersion: nat, raw: Json, at: int, c: nat)
    requires Strict(d) && HistoryInv(d, h)
    requires Attempted(d, highestVersion, raw, at, h.ledger).Ok?
    ensures var (doc, ledger) := Attempted(d, highestVersion, raw, at, h.ledger).value;
            && doc.version > highestVersion
            && Adds(d, h, Acceptance(c, doc, CanonicalDigest(raw), at),
                    Unrecorded(h.ledger.bindings, ScopeBindingsOf(doc)), ledger)
  {
    JudgementAdds(d, h, d.load(raw).value, raw, at, c);
  }

  lemma ExtendedKeepsRecords(d: Deployment, h: History, a: Acceptance, more: seq<ScopeBinding>, ledger: LedgerState)
    requires HistoryRecorded(d, h) && Adds(d, h, a, more, ledger)
    ensures HistoryRecorded(d, Extended(h, a, ledger))
  {
    forall i | 0 <= i < |h.accepted|
      ensures AllRecorded(h.accepted[i].doc, ledger.bindings)
    {
      StaysRecorded(h.accepted[i].doc, h.ledger.bindings, more);
    }
  }

  lemma ExtendedKeepsVersions(d: Deployment, h: History, a: Acceptance, more: seq<ScopeBinding>, ledger: LedgerState)
    requires HistoryInv(d, h) && Adds(d, h, a, more, ledger)
    requires forall i :: 0 <= i < |h.accepted| && h.accepted[i].cache == a.cache ==>
             h.accepted[i].doc.version < a.doc.version
    ensures VersionsRise(h.accepted + [a])
    ensures ledger != h.ledger ==> forall i :: 0 <= i < |h.accepted| ==> h.accepted[i].doc.version < a.doc.version
  {
  }

  lemma ExtendedKeepsMark(d: Deployment, h: History, a: Acceptance, more: seq<ScopeBinding>, ledger: LedgerState)
    requires HistoryInv(d, h) && Adds(d, h, a, more, ledger)
    requires ledger != h.ledger ==> forall i :: 0 <= i < |h.accepted| ==> h.accepted[i].doc.version < a.doc.version
    ensures MarkIsLast(Extended(h, a, ledger))
  {
    var accepted := h.accepted + [a];
    if ledger.highWater == h.ledger.highWater {
      assert h.newest.value in accepted;
      var i :| 0 <= i < |h.accepted| && h.accepted[i] == h.newest.value &&
        forall j :: 0 <= j < i ==> h.accepted[j].doc.version < h.newest.value.doc.version;
      assert accepted[i] == h.newest.value;
      assert d.load(h.newest.value.digest.document) == Ok(h.newest.value.doc);
    } else {
      assert accepted[|h.accepted|] == a;
    }
  }

  lemma ExtendedKeepsHistory(d: Deployment, h: History, a: Acceptance, more: seq<ScopeBinding>, ledger: LedgerState)
    requires HistoryInv(d, h) && Adds(d, h, a, more, ledger)
    requires forall i :: 0 <= i < |h.accepted| && h.accepted[i].cache == a.cache ==>
             h.accepted[i].doc.version < a.doc.version
    ensures HistoryInv(d, Extended(h, a, ledger))
  {
    ExtendedKeepsRecords(d, h, a, more, ledger);
    ExtendedKeepsVersions(d, h, a, more, ledger);
    ExtendedKeepsMark(d, h, a, more, ledger);
  }

  lemma NextKeepsInv(d: Deployment, w: World, e: Event)
    requires Strict(d) && Inv(d, w)
    ensures Inv(d, Next(d, w, e))
  {
    var w' := Next(d, w, e);
    if w' != w {
      match e
      case Open(_) =>
      case Commit(c, raw, at) => CommitKeepsInv(d, w, c, raw, at);
      case Publish(c) => PublicationFollowed(w, c);
      case Invalidate(c) =>
      case Crash(c) =>
    }
  }

  lemma CommitKeepsInv(d: Deployment, w: World, c: nat, raw: Json, at: int)
    requires Strict(d) && Inv(d, w) && Ready(w, c)
    requires Attempted(d, w.caches[c].highestVersion, raw, at, w.history.ledger).Ok?
    ensures Inv(d, Next(d, w, Commit(c, raw, at)))
  {
    AttemptAdds(d, w.history, w.caches[c].highestVersion, raw, at, c);
    var (doc, ledger) := Attempted(d, w.caches[c].highestVersion, raw, at, w.history.ledger).value;
    var a := Acceptance(c, doc, CanonicalDigest(raw), at);
    HigherThanItsOwn(w, c, doc.version);
    ExtendedKeepsHistory(d, w.history, a, Unrecorded(w.history.ledger.bindings, ScopeBindingsOf(doc)), ledger);
    AcceptanceFollowed(w, c, a, ledger);
  }

  lemma AcceptanceFollowed(w: World, c: nat, a: Acceptance, ledger: LedgerState)
    requires CachesFollow(w) && PendingAccepted(w) && ServesHistory(w)
    requires Ready(w, c) && a.cache == c && a.doc.version > w.caches[c].highestVersion
    ensures var w' := w.(history := Extended(w.history, a, ledger),
                         caches := w.caches[c := w.caches[c].(pending := Some(a))]);
            CachesFollow(w') && PendingAccepted(w') && ServesHistory(w')
  {
    var accepted := w.history.accepted + [a];
    assert accepted[|w.history.accepted|] == a;
    forall s | s in w.served
      ensures ServedFrom(accepted, s)
    {
      var from :| from in w.history.accepted && s == SnapshotOf(from.doc, from.at, s.maxStaleMs);
      assert from in accepted;
    }
  }

  lemma PublicationFollowed(w: World, c: nat)
    requires CachesFollow(w) && PendingAccepted(w) && ServesHistory(w)
    requires c < |w.caches| && w.caches[c].pending.Some?
    ensures CachesFollow(Published(w, c)) && PendingAccepted(Published(w, c)) && ServesHistory(Published(w, c))
  {
    var a := w.caches[c].pending.value;
    var w' := Published(w, c);
    var s := w'.served[|w.served|];
    assert a in w.history.accepted && s == SnapshotOf(a.doc, a.at, s.maxStaleMs);
    assert ServedFrom(w.history.accepted, s);
    forall t | t in w'.served
      ensures ServedFrom(w.history.accepted, t)
    {
      assert t in w.served || t == s;
    }
  }

  lemma HigherThanItsOwn(w: World, c: nat, version: nat)
    requires CachesFollow(w) && Ready(w, c) && version > w.caches[c].highestVersion
    ensures forall i :: 0 <= i < |w.history.accepted| && w.history.accepted[i].cache == c ==>
            w.history.accepted[i].doc.version < version
  {
  }

  lemma {:induction false} RunKeepsInv(d: Deployment, events: seq<Event>)
    requires Strict(d)
    ensures Inv(d, Run(d, events))
  {
    if events != [] {
      RunKeepsInv(d, events[..|events| - 1]);
      NextKeepsInv(d, Run(d, events[..|events| - 1]), events[|events| - 1]);
    }
  }

  /**
   * An install by one cache, nothing between, is its commit and then its publication; a refused one changes nothing.
   */
  lemma InstallIsCommitThenPublish(d: Deployment, w: World, c: nat, raw: Json, at: int)
    requires Ready(w, c)
    ensures var attempt := Attempted(d, w.caches[c].highestVersion, raw, at, w.history.ledger);
            var w' := Next(d, Next(d, w, Commit(c, raw, at)), Publish(c));
            if attempt.Err? then w' == w
            else
              var (doc, ledger) := attempt.value;
              var s := SnapshotOf(doc, at, w.caches[c].maxStaleMs);
              && w'.history.ledger == ledger && w'.served == w.served + [s]
              && w'.caches == w.caches[c := Cache(w.caches[c].maxStaleMs, doc.version, Some(s), None, true)]
  {
  }

  lemma {:induction false} RunOneMore(d: Deployment, events: seq<Event>, e: Event)
    ensures Run(d, events + [e]) == Next(d, Run(d, events), e)
  {
    assert (events + [e])[..|events|] == events;
  }

  // ---- Which installs a run accepts ----

  /** The acceptance at `i` is the first whose document maps the key. */
  ghost predicate FirstMaps(accepted: seq<Acceptance>, i: nat, key: Key) {
    i < |accepted| && MapsScope(accepted[i].doc, key) && forall j :: 0 <= j < i ==> !MapsScope(accepted[j].doc, key)
  }

  /** What the ledger holds under a key once it was first mapped at `i`. */
  function FirstBinding(accepted: seq<Acceptance>, i: nat, key: Key): ScopeBinding
    requires i < |accepted| && MapsScope(accepted[i].doc, key)
  {
    ScopeBinding(key.issuer, key.scope, accepted[i].doc.resource, ScopeValue(accepted[i].doc, key).value.contract)
  }

  ghost predicate HoldsFirstMappings(h: History, key: Key) {
    && (Find(h.ledger.bindings, key).Some? ==> exists i: nat :: FirstMaps(h.accepted, i, key))
    && (forall i: nat :: FirstMaps(h.accepted, i, key) ==>
          Find(h.ledger.bindings, key) == Some(FirstBinding(h.accepted, i, key)))
  }

  lemma FirstMapsNext(accepted: seq<Acceptance>, a: Acceptance, i: nat, key: Key)
    ensures FirstMaps(accepted + [a], i, key) <==>
            FirstMaps(accepted, i, key) ||
            (i == |accepted| && MapsScope(a.doc, key) && forall j: nat :: !FirstMaps(accepted, j, key))
  {
    var next := accepted + [a];
    assert forall j :: 0 <= j < |accepted| ==> next[j] == accepted[j];
    if i == |accepted| && MapsScope(a.doc, key) && forall j: nat :: !FirstMaps(accepted, j, key) {
      NoneMaps(accepted, key);
    }
  }

  /** If none is the first to map a key, none maps it. */
  lemma {:induction false} NoneMaps(accepted: seq<Acceptance>, key: Key)
    requires forall j: nat :: !FirstMaps(accepted, j, key)
    ensures forall i :: 0 <= i < |accepted| ==> !MapsScope(accepted[i].doc, key)
  {
    for n := 0 to |accepted|
      invariant forall i :: 0 <= i < n ==> !MapsScope(accepted[i].doc, key)
    {
      assert !FirstMaps(accepted, n, key);
    }
  }

  lemma AbsorbedHoldsFirst(h: History, a: Acceptance, ledger: LedgerState, key: Key)
    requires HoldsFirstMappings(h, key) && Absorbs(a.doc, a.digest, h.ledger, ledger)
    ensures HoldsFirstMappings(Extended(h, a, ledger), key)
  {
    var accepted := h.accepted;
    forall i: nat
      ensures FirstMaps(accepted + [a], i, key) <==>
              FirstMaps(accepted, i, key) ||
              (i == |accepted| && MapsScope(a.doc, key) && forall j: nat :: !FirstMaps(accepted, j, key))
    {
      FirstMapsNext(accepted, a, i, key);
    }
    if Find(h.ledger.bindings, key).Some? {
      var i: nat :| FirstMaps(accepted, i, key);
      assert FirstMaps(accepted + [a], i, key);
    } else if MapsScope(a.doc, key) {
      assert FirstMaps(accepted + [a], |accepted|, key);
    }
  }

  /** Over every run the ledger holds, under each key, what the first accepted document to map it stated. */
  lemma {:induction false} LedgerIsFirstMappings(d: Deployment, events: seq<Event>, key: Key)
    requires Strict(d)
    ensures HoldsFirstMappings(Run(d, events).history, key)
  {
    if events != [] {
      var front, e := events[..|events| - 1], events[|events| - 1];
      LedgerIsFirstMappings(d, front, key);
      RunKeepsInv(d, front);
      var w := Run(d, front);
      if e.Commit? && Ready(w, e.cache) {
        AttemptedExactly(d, w.caches[e.cache].highestVersion, e.raw, e.at, w.history.ledger);
        var attempt := Attempted(d, w.caches[e.cache].highestVersion, e.raw, e.at, w.history.ledger);
        if attempt.Ok? {
          var a := Acceptance(e.cache, attempt.value.0, CanonicalDigest(e.raw), e.at);
          AbsorbedHoldsFirst(w.history, a, attempt.value.1, key);
        }
      }
    }
  }

  /** Every accepted version is below the document's, or is this very document. */
  ghost predicate AboveAll(accepted: seq<Acceptance>, doc: Document, digest: Digest) {
    forall i :: 0 <= i < |accepted| ==>
      accepted[i].doc.version < doc.version || (accepted[i].doc.version == doc.version && accepted[i].digest == digest)
  }

  /** No accepted document maps one of `doc`'s values under another contract. */
  ghost predicate AgreesWithAll(accepted: seq<Acceptance>, doc: Document) {
    forall i, key :: 0 <= i < |accepted| && MapsScope(accepted[i].doc, key) && MapsScope(doc, key) ==>
      ScopeValue(accepted[i].doc, key).value.contract == ScopeValue(doc, key).value.contract
  }

  /** What an accepted document first mapped and `doc` leaves out has lapsed. */
  ghost predicate KeepsSupported(d: Deployment, accepted: seq<Acceptance>, doc: Document, at: int) {
    forall i: nat, key :: FirstMaps(accepted, i, key) && !MapsScope(doc, key) ==>
      Lapsed(d.contracts, FirstBinding(accepted, i, key), at)
  }

  lemma MarkAdmitsAbove(h: History, doc: Document, digest: Digest)
    requires VersionsRise(h.accepted) && MarkIsLast(h)
    ensures MarkAdmits(h.ledger.highWater, doc, digest) <==> AboveAll(h.accepted, doc, digest)
  {
    if h.accepted != [] {
      var last := h.accepted[|h.accepted| - 1];
      assert last.doc.version < doc.version || (last.doc.version == doc.version && last.digest == digest) <==>
             MarkAdmits(h.ledger.highWater, doc, digest);
    }
  }

  lemma ChangesNoneAgrees(h: History, doc: Document)
    requires forall key :: HoldsFirstMappings(h, key)
    requires forall i :: 0 <= i < |h.accepted| ==> AllRecorded(h.accepted[i].doc, h.ledger.bindings)
    ensures ChangesNone(doc, h.ledger.bindings) <==> AgreesWithAll(h.accepted, doc)
  {
    if ChangesNone(doc, h.ledger.bindings) {
      forall i, key | 0 <= i < |h.accepted| && MapsScope(h.accepted[i].doc, key) && MapsScope(doc, key)
        ensures ScopeValue(h.accepted[i].doc, key).value.contract == ScopeValue(doc, key).value.contract
      {
        assert !Changes(doc, h.ledger.bindings, key);
      }
    }
    if AgreesWithAll(h.accepted, doc) {
      forall key
        ensures !Changes(doc, h.ledger.bindings, key)
      {
        assert HoldsFirstMappings(h, key);
      }
    }
  }

  lemma AbandonsNoneKeeps(d: Deployment, h: History, doc: Document, at: int)
    requires DistinctBindings(h.ledger.bindings) && forall key :: HoldsFirstMappings(h, key)
    ensures AbandonsNone(d.contracts, doc, h.ledger.bindings, at) <==> KeepsSupported(d, h.accepted, doc, at)
  {
    var bindings := h.ledger.bindings;
    if AbandonsNone(d.contracts, doc, bindings, at) {
      forall i: nat, key | FirstMaps(h.accepted, i, key) && !MapsScope(doc, key)
        ensures Lapsed(d.contracts, FirstBinding(h.accepted, i, key), at)
      {
        assert HoldsFirstMappings(h, key);
        var k :| 0 <= k < |bindings| && bindings[k] == Find(bindings, key).value;
        assert !Abandons(d.contracts, doc, bindings[k], at);
      }
    }
    if KeepsSupported(d, h.accepted, doc, at) {
      forall k | 0 <= k < |bindings|
        ensures !Abandons(d.contracts, doc, bindings[k], at)
      {
        FindInDistinct(bindings, k);
        assert HoldsFirstMappings(h, KeyOf(bindings[k]));
      }
    }
  }

  /**
   * After any run, a cache's install commits exactly when the document loads
   * above the cache's own version, no accepted version is above it or its
   * equal with another document, no accepted document maps one of its values
   * under another contract, and every value it leaves out has lapsed.
   */
  lemma AcceptedExactlyWhen(d: Deployment, events: seq<Event>, c: nat, raw: Json, at: int)
    requires Strict(d) && Ready(Run(d, events), c)
    ensures var w, w' := Run(d, events), Next(d, Run(d, events), Commit(c, raw, at));
            (w' != w <==> && d.load(raw).Ok? && d.load(raw).value.version > w.caches[c].highestVersion
                          && AboveAll(w.history.accepted, d.load(raw).value, CanonicalDigest(raw))
                          && AgreesWithAll(w.history.accepted, d.load(raw).value)
                          && KeepsSupported(d, w.history.accepted, d.load(raw).value, at))
    ensures var w, w' := Run(d, events), Next(d, Run(d, events), Commit(c, raw, at));
            w' != w ==>
              && w'.history.accepted ==
                 w.history.accepted + [Acceptance(c, d.load(raw).value, CanonicalDigest(raw), at)]
              && w'.served == w.served && w'.caches[c].pending.Some?
  {
    var w := Run(d, events);
    RunKeepsInv(d, events);
    forall key
      ensures HoldsFirstMappings(w.history, key)
    {
      LedgerIsFirstMappings(d, events, key);
    }
    AttemptedExactly(d, w.caches[c].highestVersion, raw, at, w.history.ledger);
    if d.load(raw).Ok? {
      var doc := d.load(raw).value;
      MarkAdmitsAbove(w.history, doc, CanonicalDigest(raw));
      ChangesNoneAgrees(w.history, doc);
      AbandonsNoneKeeps(d, w.history, doc, at);
    }
  }

  // ---- Caches that serve nothing ----

  ghost predicate IsDown(w: World, c: nat) {
    c < |w.caches| && !w.caches[c].alive && w.caches[c].snapshot.None? && w.caches[c].pending.None?
  }

  lemma NextStaysDown(d: Deployment, w: World, e: Event, c: nat)
    requires IsDown(w, c)
    ensures var w' := Next(d, w, e);
            && IsDown(w', c) && w.history.accepted <= w'.history.accepted
            && forall i :: |w.history.accepted| <= i < |w'.history.accepted| ==> w'.history.accepted[i].cache != c
  {
  }

  /** A crashed cache serves and commits nothing more, whatever follows. */
  lemma {:induction false} CrashedStaysDown(d: Deployment, events: seq<Event>, more: seq<Event>, c: nat)
    requires c < |Run(d, events).caches|
    ensures var crashed, w := Run(d, events + [Crash(c)]), Run(d, events + [Crash(c)] + more);
            && IsDown(w, c) && crashed.history.accepted <= w.history.accepted
            && forall i :: |crashed.history.accepted| <= i < |w.history.accepted| ==> w.history.accepted[i].cache != c
  {
    var before := events + [Crash(c)];
    if more == [] {
      assert before + more == before;
      RunOneMore(d, events, Crash(c));
    } else {
      var front, e := more[..|more| - 1], more[|more| - 1];
      CrashedStaysDown(d, events, front, c);
      NextStaysDown(d, Run(d, before + front), e, c);
      RunOneMore(d, before + front, e);
      assert before + more == before + front + [e];
    }
  }

  ghost predicate ServesNothing(w: World, c: nat) {
    c < |w.caches| && w.caches[c].snapshot.None?
  }

  lemma NextServesNothing(d: Deployment, w: World, e: Event, c: nat)
    requires ServesNothing(w, c) && e != Publish(c)
    ensures ServesNothing(Next(d, w, e), c)
  {
  }

  lemma {:induction false} ServesNothingUntilPublished(d: Deployment, events: seq<Event>, more: seq<Event>, c: nat)
    requires ServesNothing(Run(d, events), c) && Publish(c) !in more
    ensures ServesNothing(Run(d, events + more), c)
  {
    if more == [] {
      assert events + more == events;
    } else {
      var front, e := more[..|more| - 1], more[|more| - 1];
      assert more == front + [e];
      ServesNothingUntilPublished(d, events, front, c);
      NextServesNothing(d, Run(d, events + front), e, c);
      RunOneMore(d, events + front, e);
      assert events + more == events + front + [e];
    }
  }

  /** Once invalidated, a cache serves nothing until it publishes; nothing else changes. */
  lemma InvalidatedUntilPublished(d: Deployment, events: seq<Event>, more: seq<Event>, c: nat)
    requires Ready(Run(d, events), c) && Publish(c) !in more
    ensures ServesNothing(Run(d, events + [Invalidate(c)] + more), c)
    ensures var w, w' := Run(d, events), Run(d, events + [Invalidate(c)]);
            w'.history == w.history && w'.served == w.served &&
                w'.caches == w.caches[c := w.caches[c].(snapshot := None)]
  {
    RunOneMore(d, events, Invalidate(c));
    ServesNothingUntilPublished(d, events + [Invalidate(c)], more, c);
  }

  // ---- The claims about whole runs ----

  /**
   * A scope value never changes contract: any two snapshots ever served, by
   * any caches at any time, that map a value give it the same contract or both
   * none, whatever versions in between withdrew it.
   */
  lemma ServedScopesNeverChangeContract(d: Deployment, events: seq<Event>, s: Snapshot, t: Snapshot, key: Key)
    requires Strict(d) && s in Run(d, events).served && t in Run(d, events).served
    requires MapsScope(s.doc, key) && MapsScope(t.doc, key)
    ensures ScopeValue(s.doc, key).value.contract == ScopeValue(t.doc, key).value.contract
  {
    RunKeepsInv(d, events);
    var h := Run(d, events).history;
    assert ServedFrom(h.accepted, s) && ServedFrom(h.accepted, t);
  }

  lemma OneVersionOneAcceptance(d: Deployment, h: History, a: Acceptance, b: Acceptance)
    requires HistoryRecorded(d, h) && VersionsRise(h.accepted) && a in h.accepted && b in h.accepted
    requires a.doc.version == b.doc.version
    ensures a.doc == b.doc
  {
    assert d.load(a.digest.document) == Ok(a.doc) && d.load(b.digest.document) == Ok(b.doc);
  }

  /** One version is one document everywhere. */
  lemma OneVersionIsOneDocument(d: Deployment, events: seq<Event>, s: Snapshot, t: Snapshot)
    requires Strict(d) && s in Run(d, events).served && t in Run(d, events).served && s.doc.version == t.doc.version
    ensures s.doc == t.doc && s.subjects == t.subjects && s.clients == t.clients
  {
    RunKeepsInv(d, events);
    var accepted := Run(d, events).history.accepted;
    assert ServedFrom(accepted, s) && ServedFrom(accepted, t);
    var a :| a in accepted && s == SnapshotOf(a.doc, a.at, s.maxStaleMs);
    var b :| b in accepted && t == SnapshotOf(b.doc, b.at, t.maxStaleMs);
    OneVersionOneAcceptance(d, Run(d, events).history, a, b);
  }

  /** The gateway's and the MAS's caches, serving one version, resolve every identity alike whenever both are fresh. */
  lemma SameVersionResolvesAlike(d: Deployment, events: seq<Event>, s: Snapshot, t: Snapshot,
                                 subject: Identity, client: Identity, missionIssuer: string, now: int)
    requires Strict(d) && s in Run(d, events).served && t in Run(d, events).served && s.doc.version == t.doc.version
    requires Fresh(s, now) && Fresh(t, now)
    ensures Resolve(s, subject, client, missionIssuer, now) == Resolve(t, subject, client, missionIssuer, now)
  {
    OneVersionIsOneDocument(d, events, s, t);
  }

  /**
   * Accepted versions never fall in commit order, strictly rise within a cache, and equal versions are equal documents.
   */
  lemma AcceptedVersionsRise(d: Deployment, events: seq<Event>, i: nat, j: nat)
    requires Strict(d) && i < j < |Run(d, events).history.accepted|
    ensures var a, b := Run(d, events).history.accepted[i], Run(d, events).history.accepted[j];
            && a.doc.version <= b.doc.version
            && (a.doc.version == b.doc.version ==> a.digest == b.digest && a.doc == b.doc)
            && (a.cache == b.cache ==> a.doc.version < b.doc.version)
  {
    RunKeepsInv(d, events);
  }

  /**
   * No supported value is withdrawn: at or after the newest acceptance, a recorded value still supported is mapped by
   * it.
   */
  lemma SupportedValuesStayMapped(d: Deployment, events: seq<Event>, b: ScopeBinding, now: int)
    requires Strict(d)
    requires var h := Run(d, events).history;
             b in h.ledger.bindings && b.contract.Some? && h.newest.Some? && h.newest.value.at <= now &&
             Supported(d.contracts, b.contract.value, b.resource, now)
    ensures ScopeValue(Run(d, events).history.newest.value.doc, KeyOf(b)).Some?
    ensures ScopeValue(Run(d, events).history.newest.value.doc, KeyOf(b)).value.contract == b.contract
  {
    RunKeepsInv(d, events);
    var h := Run(d, events).history;
    SupportOnlyEnds(d.contracts, b.contract.value, b.resource, h.newest.value.at, now);
    var i :| 0 <= i < |h.ledger.bindings| && h.ledger.bindings[i] == b;
    FindInDistinct(h.ledger.bindings, i);
    assert MapsScope(h.newest.value.doc, KeyOf(b));
  }

  /** Every recorded value the newest document leaves out has lapsed at `at`. */
  ghost predicate LeftOutLapsed(d: Deployment, h: History, at: int)
    requires h.newest.Some?
  {
    forall i :: 0 <= i < |h.ledger.bindings| ==>
      MapsScope(h.newest.value.doc, KeyOf(h.ledger.bindings[i])) || Lapsed(d.contracts, h.ledger.bindings[i], at)
  }

  lemma NewestReloadsIff(d: Deployment, h: History, raw: Json, at: int)
    requires Strict(d) && HistoryInv(d, h) && h.newest.Some? && CanonicalDigest(raw) == h.newest.value.digest
    ensures Judged(d.contracts, h.newest.value.doc, CanonicalDigest(raw), at, h.ledger).result.None? <==>
            LeftOutLapsed(d, h, at)
    ensures LeftOutLapsed(d, h, at) ==>
              Judged(d.contracts, h.newest.value.doc, CanonicalDigest(raw), at, h.ledger).record ==
                  Some(Record([], None))
  {
    var doc := h.newest.value.doc;
    var incoming := ScopeBindingsOf(doc);
    assert d.load(raw) == Ok(doc);
    NoneRepointed(doc, h.ledger.bindings);
    RecordedAddsNothing(doc, h.ledger.bindings);
    forall i | 0 <= i < |h.ledger.bindings|
      ensures Withdrawn(d.contracts, incoming, h.ledger.bindings[i], at) <==>
              !(MapsScope(doc, KeyOf(h.ledger.bindings[i])) || Lapsed(d.contracts, h.ledger.bindings[i], at))
    {
      CollectedExactly(doc, KeyOf(h.ledger.bindings[i]));
    }
  }

  /**
   * A restart: a fresh cache given the document at the high-water mark accepts
   * it, recording nothing, exactly when every recorded value the document
   * leaves out has lapsed by the restart's time.
   */
  lemma RestartAcceptsIff(d: Deployment, events: seq<Event>, raw: Json, at: int)
    requires Strict(d)
    requires Run(d, events).history.newest.Some? && CanonicalDigest(raw) == Run(d, events).history.newest.value.digest
    ensures var h := Run(d, events).history;
            && h.ledger.highWater.Some? && h.ledger.highWater.value.digest == CanonicalDigest(raw)
            && (Attempted(d, 0, raw, at, h.ledger).Ok? <==> LeftOutLapsed(d, h, at))
            && (LeftOutLapsed(d, h, at) ==> Attempted(d, 0, raw, at, h.ledger) == Ok((h.newest.value.doc, h.ledger)))
  {
    RunKeepsInv(d, events);
    var h := Run(d, events).history;
    assert d.load(raw) == Ok(h.newest.value.doc);
    NewestReloadsIff(d, h, raw, at);
  }

  /** In particular, a restart at or after the newest acceptance always reloads the newest document. */
  lemma RestartAccepts(d: Deployment, events: seq<Event>, raw: Json, at: int)
    requires Strict(d)
    requires Run(d, events).history.newest.Some? && CanonicalDigest(raw) == Run(d, events).history.newest.value.digest
    requires Run(d, events).history.newest.value.at <= at
    ensures Attempted(d, 0, raw, at, Run(d, events).history.ledger) ==
            Ok((Run(d, events).history.newest.value.doc, Run(d, events).history.ledger))
  {
    RestartAcceptsIff(d, events, raw, at);
    RunKeepsInv(d, events);
    var h := Run(d, events).history;
    forall i | 0 <= i < |h.ledger.bindings| && Lapsed(d.contracts, h.ledger.bindings[i], h.newest.value.at)
      ensures Lapsed(d.contracts, h.ledger.bindings[i], at)
    {
      var b := h.ledger.bindings[i];
      if b.contract.Some? && Supported(d.contracts, b.contract.value, b.resource, at) {
        SupportOnlyEnds(d.contracts, b.contract.value, b.resource, h.newest.value.at, at);
      }
    }
  }

  // ---- A restart the ledger refuses ----

  function Letters(n: nat): (s: string)
    ensures |s| == n && forall i :: 0 <= i < n ==> s[i] == 'A'
  {
    if n == 0 then "" else Letters(n - 1) + ['A']
  }

  function OldReference(): ContractRef {
    ContractRef("a:b", "1", "sha-256:" + Letters(43))
  }

  function DocumentWith(version: nat, scopes: Rec<Rec<MappedScope>>): Document {
    Document("m", version, DATE, Provenance("p", "x", DATE), "mission", [], [], "r", scopes, [])
  }

  /** Version 1 maps one scope value, to a contract retained until 10; version 2 leaves it out. */
  function WithScope(): Document {
    DocumentWith(1, [("issuer", [("read", MappedScope(["a"], Some(OldReference())))])])
  }

  function WithoutScope(): Document {
    DocumentWith(2, [])
  }

  predicate AnyResource(resource: string) {
    true
  }

  function RetainedUntilTen(): Declarations {
    [Declaration("a:b", AnyResource, [DeclaredVersion("1", Superseded(10.0), OldReference().digest, ["a"])])]
  }

  lemma {:induction false} OldReferenceIsWellFormed()
    ensures WellFormed(OldReference())
    ensures ViolationOf(RetainedUntilTen(), OldReference(), "r", ["a"], None).None?
    ensures Supported(RetainedUntilTen(), OldReference(), "r", 5) &&
            !Supported(RetainedUntilTen(), OldReference(), "r", 20)
  {
    var id := OldReference().id;
    assert id[1] == ':';
    assert IsAbsoluteUri(id);
  }

  /** The loader accepts both, wherever the calendar accepts their date. */
  lemma {:induction false} BothLoad(env: Env)
    requires env.contracts == RetainedUntilTen() && env.calendarAccepts(DATE)
    ensures Parse(Written(WithScope()), env) == Ok(WithScope()) &&
            Parse(Written(WithoutScope()), env) == Ok(WithoutScope())
  {
    OldReferenceIsWellFormed();
    DateIsDated();
    assert LoadableScope(MappedScope(["a"], Some(OldReference())), "r", env.contracts);
    WrittenLoads(WithScope(), env);
    WrittenLoads(WithoutScope(), env);
  }

  function OldBinding(): ScopeBinding {
    ScopeBinding("issuer", "read", "r", Some(OldReference()))
  }

  function LedgerWith(version: nat, document: Json): LedgerState {
    LedgerState([OldBinding()], Some(HighWater(version, CanonicalDigest(document))))
  }

  lemma TheirBindings()
    ensures ScopeBindingsOf(WithScope()) == [OldBinding()] && ScopeBindingsOf(WithoutScope()) == []
  {
    var scopes := WithScope().scopes;
    var values := scopes[0].1;
    assert scopes[..0] == [] && values[..0] == [];
    assert IssuerBindings("issuer", values, "r") == [OldBinding()];
  }

  lemma {:induction false} FirstCommitted(env: Env)
    requires env.contracts == RetainedUntilTen() && env.calendarAccepts(DATE)
    ensures var raw := Written(WithScope());
            Attempted(DeploymentOf(env), 0, raw, 5, EMPTY_LEDGER) == Ok((WithScope(), LedgerWith(1, raw)))
  {
    BothLoad(env);
    TheirBindings();
    FirstJudged(env.contracts, CanonicalDigest(Written(WithScope())));
  }

  lemma {:induction false} FirstJudged(contracts: Declarations, digest: Digest)
    requires ScopeBindingsOf(WithScope()) == [OldBinding()]
    ensures var d := Judged(contracts, WithScope(), digest, 5, EMPTY_LEDGER);
            && d.result.None?
            && Committed(EMPTY_LEDGER, d.record) == Ok(LedgerState([OldBinding()], Some(HighWater(1, digest))))
  {
    var incoming := [OldBinding()];
    assert incoming[..0] == [];
    assert Unrecorded([], incoming) == incoming;
    assert Appended([], incoming) == Ok(incoming) by {
      AppendedIff([], incoming);
      assert [] + incoming == incoming;
    }
  }

  lemma {:induction false} SecondCommitted(env: Env)
    requires env.contracts == RetainedUntilTen() && env.calendarAccepts(DATE)
    ensures var first, raw := Written(WithScope()), Written(WithoutScope());
            && Attempted(DeploymentOf(env), 0, raw, 20, LedgerWith(1, first)) ==
                Ok((WithoutScope(), LedgerWith(2, raw)))
            && Attempted(DeploymentOf(env), 0, raw, 5, LedgerWith(2, raw)) == Err(Withdraws(2, KeyOf(OldBinding())))
  {
    BothLoad(env);
    TheirBindings();
    SecondJudged(env.contracts, CanonicalDigest(Written(WithScope())), CanonicalDigest(Written(WithoutScope())));
  }

  lemma {:induction false} SecondJudged(contracts: Declarations, first: Digest, second: Digest)
    requires contracts == RetainedUntilTen() && ScopeBindingsOf(WithoutScope()) == []
    ensures var before := LedgerState([OldBinding()], Some(HighWater(1, first)));
            var after := LedgerState([OldBinding()], Some(HighWater(2, second)));
            var d := Judged(contracts, WithoutScope(), second, 20, before);
            && d.result.None? && Committed(before, d.record) == Ok(after)
            && Judged(contracts, WithoutScope(), second, 5, after).result == Some(Withdraws(2, KeyOf(OldBinding())))
  {
    OldReferenceIsWellFormed();
    assert !Withdrawn(contracts, [], OldBinding(), 20) && Withdrawn(contracts, [], OldBinding(), 5);
  }

  lemma CommitTaken(d: Deployment, events: seq<Event>, c: nat, raw: Json, at: int, doc: Document, ledger: LedgerState)
    requires Ready(Run(d, events), c) && Run(d, events).caches[c].highestVersion == 0
    requires Attempted(d, 0, raw, at, Run(d, events).history.ledger) == Ok((doc, ledger))
    requires ledger.highWater != Run(d, events).history.ledger.highWater
    ensures var w := Run(d, events + [Commit(c, raw, at)]);
            && w.history.ledger == ledger && w.history.newest == Some(Acceptance(c, doc, CanonicalDigest(raw), at))
            && |w.caches| == |Run(d, events).caches|
            && forall i :: 0 <= i < |w.caches| && i != c ==> w.caches[i] == Run(d, events).caches[i]
  {
    assert (events + [Commit(c, raw, at)])[..|events|] == events;
  }

  lemma TwoOpened(d: Deployment)
    ensures Run(d, [Open(1000), Open(1000)]) ==
            World(History(EMPTY_LEDGER, [], None), [Cache(1000, 0, None, None, true), Cache(1000, 0, None, None, true)],
                  [])
  {
    var events: seq<Event> := [Open(1000), Open(1000)];
    assert events[..1] == [Open(1000)] && events[..1][..0] == [];
    assert Run(d, events[..1]) == World(History(EMPTY_LEDGER, [], None), [Cache(1000, 0, None, None, true)], []);
  }

  /**
   * The condition is needed: with a clock set back, a restart of the newest
   * contract, which the strict loader accepts and which was accepted once a
   * scope value's contract had lapsed, is refused for withdrawing that value.
   */
  lemma {:induction false} RestartMayBeRefused(env: Env) returns (events: seq<Event>, raw: Json, at: int)
    requires env.contracts == RetainedUntilTen() && env.calendarAccepts(DATE)
    ensures var d := DeploymentOf(env);
            var h := Run(d, events).history;
            && Strict(d) && h.newest.Some? && CanonicalDigest(raw) == h.newest.value.digest
            && Parse(raw, env).Ok? && Attempted(d, 0, raw, at, h.ledger) == Err(Withdraws(2, KeyOf(OldBinding())))
  {
    var d, first := DeploymentOf(env), Written(WithScope());
    raw, at := Written(WithoutScope()), 5;
    DeploymentIsStrict(env);
    BothLoad(env);
    FirstCommitted(env);
    SecondCommitted(env);
    TwoOpened(d);
    CommitTaken(d, [Open(1000), Open(1000)], 0, first, 5, WithScope(), LedgerWith(1, first));
    events := [Open(1000), Open(1000)] + [Commit(0, first, 5)];
    CommitTaken(d, events, 1, raw, 20, WithoutScope(), LedgerWith(2, raw));
    events := events + [Commit(1, raw, 20)];
  }

  ghost predicate Extends(w: World, w': World) {
    && w.history.ledger.bindings <= w'.history.ledger.bindings
    && w.history.accepted <= w'.history.accepted
    && w.served <= w'.served
  }

  /** The ledger and the history only grow. */
  lemma {:induction false} RunsOnlyAppend(d: Deployment, events: seq<Event>, more: seq<Event>)
    requires Strict(d)
    ensures Extends(Run(d, events), Run(d, events + more))
  {
    if more == [] {
      assert events + more == events;
    } else {
      var front, e := more[..|more| - 1], more[|more| - 1];
      RunsOnlyAppend(d, events, front);
      NextOnlyAppends(d, events + front, e);
      RunOneMore(d, events + front, e);
      assert events + more == events + front + [e];
    }
  }

  lemma NextOnlyAppends(d: Deployment, events: seq<Event>, e: Event)
    requires Strict(d)
    ensures Extends(Run(d, events), Next(d, Run(d, events), e))
  {
    RunKeepsInv(d, events);
    var w := Run(d, events);
    if e.Commit? && Ready(w, e.cache) &&
        Attempted(d, w.caches[e.cache].highestVersion, e.raw, e.at, w.history.ledger).Ok? {
      AttemptAdds(d, w.history, w.caches[e.cache].highestVersion, e.raw, e.at, e.cache);
    }
  }

  lemma AttemptTripsNoGuard(d: Deployment, highestVersion: nat, raw: Json, at: int, state: LedgerState)
    requires Strict(d) && Sound(state.bindings)
    ensures var r := Attempted(d, highestVersion, raw, at, state);
            !(r.Err? && r.error.LedgerFailed?)
  {
    var doc := Prechecked(d, highestVersion, raw);
    if doc.Ok? {
      InstallNeverTripsTheGuards(d.contracts, doc.value, CanonicalDigest(raw), at, state);
    }
  }

  /** No install, in any run, is stopped by the ledger's own guards. */
  lemma NoInstallTripsTheGuards(d: Deployment, events: seq<Event>, highestVersion: nat, raw: Json, at: int)
    requires Strict(d)
    ensures var r := Attempted(d, highestVersion, raw, at, Run(d, events).history.ledger);
            !(r.Err? && r.error.LedgerFailed?)
  {
    RunKeepsInv(d, events);
    AttemptTripsNoGuard(d, highestVersion, raw, at, Run(d, events).history.ledger);
  }
}
